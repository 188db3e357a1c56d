/** The credential catalog: every change is committed to the configuration file or undone,
    and a credential once invalidated stays so. */
module AccessCatalog {
  import opened Base
  import opened Profiles

  const MAX_CREDENTIALS := 128
  const LAST_USED_WRITE_INTERVAL_MS := 60_000

  datatype Role = Administrator | User

  datatype CameraAccess = CameraAccess(all: bool, groups: set<string>, cameras: set<string>)

  datatype Credential = Credential(
    id: nat, name: string, role: Role, access: Option<CameraAccess>, verifier: nat,
    created: int, rotated: Option<int>, lastUsed: Option<int>, expires: Option<int>,
    disabled: bool, revoked: Option<int>, revision: nat, legacy: bool, secretPending: bool)

  type Catalog = seq<Credential>

  predicate IsActive(c: Credential, revision: nat, now: int) {
    && c.revision == revision && !c.disabled && c.revoked.None?
    && (c.expires.Some? ==> c.expires.value > now)
  }

  // validate_catalog, for the fields that change.
  predicate ValidCatalog(cat: Catalog) {
    && |cat| <= MAX_CREDENTIALS
    && (forall i :: 0 <= i < |cat| ==> 0 < cat[i].revision <= U64_MAX)
    && (forall i, j :: 0 <= i < j < |cat| ==> cat[i].id != cat[j].id)
  }

  function Bump(revision: nat): (r: nat) { if revision < U64_MAX then revision + 1 else U64_MAX }

  function Lower(s: string): (r: string) { seq(|s|, i requires 0 <= i < |s| => AsciiLower(s[i])) }

  // ---- The operations --------------------------------------------------------------------

  datatype Op =
    | SetCameraAccess(id: nat, expected: nat, policy: CameraAccess, valid: bool)
    | Create(id: nat, name: string, role: Role, verifier: nat, expires: Option<int>, now: int)
    | ReplaceKey(id: nat, verifier: nat, now: int)
    | SetEnabled(id: nat, enabled: bool, now: int)
    | Revoke(id: nat, now: int)
    | ClaimInitial(verifier: nat)
    | Touch(id: nat, now: int)

  // The first position that satisfies the search, as iter().find does.
  function Find(cat: Catalog, id: nat, i: nat := 0): (r: nat)
    requires i <= |cat|
    ensures i <= r <= |cat| && (r < |cat| ==> cat[r].id == id) && forall j :: i <= j < r ==> cat[j].id != id
    decreases |cat| - i
  {
    if i == |cat| || cat[i].id == id then i else Find(cat, id, i + 1)
  }

  function FindLegacy(cat: Catalog, i: nat := 0): (r: nat)
    requires i <= |cat|
    ensures i <= r <= |cat| && (r < |cat| ==> cat[r].legacy) && forall j :: i <= j < r ==> !cat[j].legacy
    decreases |cat| - i
  {
    if i == |cat| || cat[i].legacy then i else FindLegacy(cat, i + 1)
  }

  // What an operation makes of the credential it names; None is refusal.
  function Changed(c: Credential, op: Op): (r: Option<Credential>) {
    match op
    case SetCameraAccess(_, expected, policy, valid) =>
      if !valid || c.revision != expected || c.role == Administrator || c.revoked.Some? || c.revision >= U64_MAX then
        None
      else Some(c.(access := Some(policy), revision := c.revision + 1))
    case ReplaceKey(_, verifier, now) =>
      if c.revoked.Some? then None
      else Some(c.(verifier := verifier, revision := Bump(c.revision), rotated := Some(now), lastUsed := None,
                   secretPending := false))
    case SetEnabled(_, enabled, _) =>
      if c.revoked.Some? then None else Some(c.(disabled := !enabled, revision := Bump(c.revision)))
    case Revoke(_, now) =>
      if c.revoked.Some? then Some(c) else Some(c.(revoked := Some(now), revision := Bump(c.revision)))
    case ClaimInitial(verifier) =>
      if !c.secretPending || c.verifier != verifier then None else Some(c.(secretPending := false))
    case Touch(_, now) =>
      if c.lastUsed.None? || now - c.lastUsed.value >= LAST_USED_WRITE_INTERVAL_MS then
        Some(c.(lastUsed := Some(now))) else Some(c)
    case Create(_, _, _, _, _, _) => None
  }

  function Target(cat: Catalog, op: Op): (n: nat)
    ensures n <= |cat|
  {
    if op.ClaimInitial? then FindLegacy(cat) else Find(cat, op.id)
  }

  predicate NameTaken(cat: Catalog, name: string) {
    exists i :: 0 <= i < |cat| && cat[i].revoked.None? && Lower(cat[i].name) == Lower(name)
  }

  function Mutate(cat: Catalog, op: Op): (r: Option<Catalog>) {
    if op.Create? then
      if (op.expires.Some? && op.expires.value <= op.now) || !ValidLabel(op.name, 64) ||
         |cat| >= MAX_CREDENTIALS || NameTaken(cat, op.name) then None
      else
        Some(cat + [Credential(op.id, op.name, op.role, Some(CameraAccess(true, {}, {})), op.verifier, op.now,
                               None, None, op.expires, false, None, 1, false, false)])
    else
      var n := Target(cat, op);
      if n == |cat| then None
      else
        var c := Changed(cat[n], op);
        if c.None? then None else Some(cat[n := c.value])
  }

  // ---- What each operation does, field by field ------------------------------------------------

  // The credential an operation is about: the first legacy one, or the one with its id.
  ghost predicate Named(cat: Catalog, op: Op, i: nat)
    requires i < |cat| && !op.Create?
  {
    if op.ClaimInitial? then cat[i].legacy && forall j :: 0 <= j < i ==> !cat[j].legacy else cat[i].id == op.id
  }

  ghost predicate Refuses(c: Credential, op: Op) {
    || (c.revoked.Some? && (op.ReplaceKey? || op.SetEnabled? || op.SetCameraAccess?))
    || (op.SetCameraAccess? &&
        (!op.valid || c.role == Administrator || op.expected != c.revision || c.revision >= 0xFFFF_FFFF_FFFF_FFFF))
    || (op.ClaimInitial? && !(c.secretPending && c.verifier == op.verifier))
  }

  // What becomes of each field.
  ghost predicate Became(c: Credential, op: Op, d: Credential) {
    && d.id == c.id && d.name == c.name && d.role == c.role
    && d.created == c.created && d.expires == c.expires && d.legacy == c.legacy
    && d.access == (if op.SetCameraAccess? then Some(op.policy) else c.access)
    && d.verifier == (if op.ReplaceKey? then op.verifier else c.verifier)
    && d.rotated == (if op.ReplaceKey? then Some(op.now) else c.rotated)
    && d.disabled == (if op.SetEnabled? then !op.enabled else c.disabled)
    && d.revoked == (if op.Revoke? && c.revoked.None? then Some(op.now) else c.revoked)
    && d.secretPending == (c.secretPending && !op.ReplaceKey? && !op.ClaimInitial?)
    && d.lastUsed == (if op.ReplaceKey? then None
                      else if op.Touch? && (c.lastUsed.Some? ==> op.now >= c.lastUsed.value + 60_000) then Some(op.now)
                      else c.lastUsed)
    && d.revision == (if op.Touch? || op.ClaimInitial? || (op.Revoke? && c.revoked.Some?) then c.revision
                      else if c.revision < 0xFFFF_FFFF_FFFF_FFFF then c.revision + 1 else c.revision)
  }

  ghost predicate IsNew(op: Op, d: Credential)
    requires op.Create?
  {
    && d.id == op.id && d.name == op.name && d.role == op.role && d.verifier == op.verifier
    && d.created == op.now && d.expires == op.expires && d.access == Some(CameraAccess(true, {}, {}))
    && d.revision == 1 && !d.disabled && d.revoked.None? && d.rotated.None? && d.lastUsed.None?
    && !d.legacy && !d.secretPending
  }

  ghost predicate Admits(cat: Catalog, op: Op) {
    if op.Create? then
      && (op.expires.Some? ==> op.now < op.expires.value) && ValidLabel(op.name, 64) && |cat| < 128
      && forall i :: 0 <= i < |cat| && cat[i].revoked.None? ==> !SameLetters(cat[i].name, op.name)
    else exists i: nat :: i < |cat| && Named(cat, op, i) && !Refuses(cat[i], op)
  }

  ghost predicate Effect(a: Catalog, op: Op, b: Catalog) {
    if op.Create? then |b| == |a| + 1 && b[..|a|] == a && IsNew(op, b[|a|])
    else |b| == |a| && forall i: nat :: i < |a| ==> if Named(a, op, i) then Became(a[i], op, b[i]) else b[i] == a[i]
  }

  lemma LowerIs(a: string, b: string)
    ensures Lower(a) == Lower(b) <==> SameLetters(a, b)
  {
    if Lower(a) == Lower(b) {
      assert |Lower(a)| == |Lower(b)|;
      forall k | 0 <= k < |a| ensures SameLetter(a[k], b[k]) {
        assert Lower(a)[k] == Lower(b)[k];
      }
    }
    if SameLetters(a, b) {
      assert forall k :: 0 <= k < |a| ==> Lower(a)[k] == Lower(b)[k];
    }
  }

  lemma ChangedExact(c: Credential, op: Op)
    requires !op.Create? && c.revision <= U64_MAX
    ensures Changed(c, op).Some? <==> !Refuses(c, op)
    ensures Changed(c, op).Some? ==> Became(c, op, Changed(c, op).value)
  {
  }

  lemma TargetExact(cat: Catalog, op: Op, i: nat)
    requires ValidCatalog(cat) && !op.Create? && i < |cat|
    ensures Named(cat, op, i) <==> i == Target(cat, op)
  {
    if !op.ClaimInitial? && cat[i].id == op.id { OneHolder(cat, i, op.id); }
  }

  /** When an operation on the catalog is carried out, and what it then does to every field of
      every credential. */
  lemma {:induction false} MutateExact(cat: Catalog, op: Op)
    requires ValidCatalog(cat)
    ensures Mutate(cat, op).Some? <==> Admits(cat, op)
    ensures Mutate(cat, op).Some? ==> Effect(cat, op, Mutate(cat, op).value)
  {
    hide ValidLabel, Lower, SameLetters;
    if op.Create? {
      forall i | 0 <= i < |cat| ensures Lower(cat[i].name) == Lower(op.name) <==> SameLetters(cat[i].name, op.name) {
        LowerIs(cat[i].name, op.name);
      }
    } else {
      hide ValidCatalog, Refuses, Became, Named, Changed;
      var n := Target(cat, op);
      forall i: nat | i < |cat| ensures Named(cat, op, i) <==> i == n { TargetExact(cat, op, i); }
      if n < |cat| {
        RevisionFits(cat, n);
        ChangedExact(cat[n], op);
      }
    }
  }

  lemma RevisionFits(cat: Catalog, n: nat)
    requires ValidCatalog(cat) && n < |cat|
    ensures cat[n].revision <= U64_MAX
  {
  }

  // ---- Whole runs ---------------------------------------------------------------------------

  datatype Snap = Snap(cat: Catalog, now: int)

  // An operation is committed or leaves nothing behind; the clock does not go back; a new
  // credential's id is fresh.
  ghost predicate StepAllowed(a: Snap, b: Snap) {
    && a.now <= b.now
    && (b.cat == a.cat || exists op :: FreshId(a.cat, op) && Mutate(a.cat, op) == Some(b.cat))
  }

  ghost predicate FreshId(cat: Catalog, op: Op) { op.Create? ==> Find(cat, op.id) == |cat| }

  ghost predicate Run(h: seq<Snap>) {
    && (forall i :: 0 <= i < |h| ==> ValidCatalog(h[i].cat))
    && (forall i :: 0 <= i < |h| - 1 ==> StepAllowed(h[i], h[i + 1]))
  }

  // How a credential may look later on.
  ghost predicate Later(c: Credential, d: Credential) {
    && d.id == c.id && d.expires == c.expires && c.revision <= d.revision
    && d.name == c.name && d.role == c.role && d.created == c.created && d.legacy == c.legacy
    && (c.revoked.Some? ==> d.revoked == c.revoked && d.verifier == c.verifier && d.disabled == c.disabled)
    && (d.secretPending ==> c.secretPending && d.verifier == c.verifier)
    && (d.revision == c.revision < U64_MAX ==>
          d.disabled == c.disabled && d.revoked == c.revoked && d.verifier == c.verifier && d.access == c.access &&
          d.rotated == c.rotated)
  }

  ghost predicate LaterCatalog(a: Catalog, b: Catalog) {
    |a| <= |b| && forall n :: 0 <= n < |a| ==> Later(a[n], b[n])
  }

  lemma ChangedLater(c: Credential, op: Op)
    requires 0 < c.revision <= U64_MAX && Changed(c, op).Some?
    ensures Later(c, Changed(c, op).value) && Changed(c, op).value.revision <= U64_MAX
  {
  }

  lemma LaterSame(c: Credential)
    ensures Later(c, c)
  {
  }

  lemma {:induction false} MutateLater(cat: Catalog, op: Op)
    requires ValidCatalog(cat) && FreshId(cat, op) && Mutate(cat, op).Some?
    ensures LaterCatalog(cat, Mutate(cat, op).value) && ValidCatalog(Mutate(cat, op).value)
    ensures |Mutate(cat, op).value| <= 128
  {
    hide Later, ValidLabel, NameTaken;
    forall n | 0 <= n < |cat| ensures Later(cat[n], cat[n]) { LaterSame(cat[n]); }
    if !op.Create? {
      ChangedLater(cat[Target(cat, op)], op);
    }
  }

  lemma {:induction false} RunLater(h: seq<Snap>, i: nat, j: nat)
    requires Run(h) && i <= j < |h|
    ensures h[i].now <= h[j].now && LaterCatalog(h[i].cat, h[j].cat)
    decreases j - i
  {
    hide Mutate, ValidCatalog, FreshId;
    if i < j {
      RunLater(h, i, j - 1);
      assert StepAllowed(h[j - 1], h[j - 1 + 1]);
      if h[j].cat != h[j - 1].cat {
        var op :| FreshId(h[j - 1].cat, op) && Mutate(h[j - 1].cat, op) == Some(h[j].cat);
        MutateLater(h[j - 1].cat, op);
      }
    }
  }

  ghost predicate Active(s: Snap, id: nat, revision: nat) {
    exists n :: 0 <= n < |s.cat| && s.cat[n].id == id && IsActive(s.cat[n], revision, s.now)
  }

  /** An (id, revision) pair that has been active and is so no longer never is again, as long
      as the revision is not the largest one. */
  lemma {:induction false} InactiveForever(h: seq<Snap>, i: nat, j: nat, k: nat, id: nat, revision: nat)
    requires Run(h) && i <= j <= k < |h| && revision < U64_MAX
    requires Active(h[i], id, revision) && !Active(h[j], id, revision)
    ensures !Active(h[k], id, revision)
  {
    RunLater(h, i, j);
    RunLater(h, j, k);
    var n :| 0 <= n < |h[i].cat| && h[i].cat[n].id == id && IsActive(h[i].cat[n], revision, h[i].now);
    assert Later(h[i].cat[n], h[j].cat[n]) && Later(h[j].cat[n], h[k].cat[n]);
    OneHolder(h[k].cat, n, id);
  }

  lemma OneHolder(cat: Catalog, n: nat, id: nat)
    requires ValidCatalog(cat) && n < |cat| && cat[n].id == id
    ensures forall m :: 0 <= m < |cat| && cat[m].id == id ==> m == n
    ensures Find(cat, id) == n
  {
    assert forall m :: 0 <= m < n ==> cat[m].id != id;
  }

  /** Rotating, disabling, enabling, revoking or changing the access of a credential ends the
      pair it was known by, at every time. */
  lemma {:induction false} ChangeInvalidates(cat: Catalog, op: Op, n: nat, now: int)
    requires ValidCatalog(cat) && n < |cat| && cat[n].revision < U64_MAX
    requires op.ReplaceKey? || op.SetEnabled? || op.Revoke? || op.SetCameraAccess?
    requires op.id == cat[n].id && (op.Revoke? ==> cat[n].revoked.None?) && Mutate(cat, op).Some?
    ensures var after := Mutate(cat, op).value;
            && !Active(Snap(after, now), cat[n].id, cat[n].revision)
            && (op.ReplaceKey? ==> after[n].verifier == op.verifier)
            && (op.SetCameraAccess? ==> after[n].access == Some(op.policy))
            && (op.Revoke? ==> after[n].revoked == Some(op.now))
            && (op.SetEnabled? && op.enabled && (cat[n].expires.Some? ==> cat[n].expires.value > now) ==>
                  Active(Snap(after, now), cat[n].id, cat[n].revision + 1))
            && forall m :: 0 <= m < |cat| && m != n ==> after[m] == cat[m]
  {
    OneHolder(cat, n, op.id);
    MutateLater(cat, op);
    var after := Mutate(cat, op).value;
    OneHolder(after, n, op.id);
    if op.SetEnabled? && op.enabled && (cat[n].expires.Some? ==> cat[n].expires.value > now) {
      assert IsActive(after[n], cat[n].revision + 1, now);
    }
  }

  // No two credentials in use go by the same name, whatever the case.
  ghost predicate NamesDistinct(cat: Catalog) {
    forall i, j :: 0 <= i < j < |cat| && cat[i].revoked.None? && cat[j].revoked.None? ==>
      Lower(cat[i].name) != Lower(cat[j].name)
  }

  /** No operation gives two credentials in use the same name. */
  lemma {:induction false} NamesStayDistinct(cat: Catalog, op: Op)
    requires NamesDistinct(cat) && Mutate(cat, op).Some?
    ensures NamesDistinct(Mutate(cat, op).value)
  {
    hide Lower;
    if !op.Create? {
      var n := Target(cat, op);
      var c := Changed(cat[n], op).value;
      assert c.name == cat[n].name && (c.revoked.None? ==> cat[n].revoked.None?);
      assert Mutate(cat, op).value == cat[n := c];
    }
  }

  /** A new credential is active from the start under its first revision, and the initial
      secret can be claimed once. */
  lemma {:induction false} CreateAndClaim(cat: Catalog, op: Op, again: nat)
    requires Mutate(cat, op).Some?
    ensures var after := Mutate(cat, op).value;
            && (op.Create? ==> |after| == |cat| + 1 && after[..|cat|] == cat && IsNew(op, after[|cat|])
                               && Active(Snap(after, op.now), op.id, 1))
            && (op.ClaimInitial? ==> Mutate(after, ClaimInitial(again)).None?)
  {
    hide ValidLabel, NameTaken;
    var after := Mutate(cat, op).value;
    if op.Create? {
      assert IsActive(after[|cat|], 1, op.now);
    } else if op.ClaimInitial? {
      var n := FindLegacy(cat);
      assert after == cat[n := cat[n].(secretPending := false)];
      assert forall j :: 0 <= j < n ==> !after[j].legacy;
      assert after[n].legacy && FindLegacy(after) == n;
    }
  }

  /** At the largest revision it does happen: disabling and enabling again leaves the revision
      where it was, and the very same pair is active once more. */
  lemma {:induction false} SaturatedRevisionRevives(cat: Catalog, n: nat, now: int)
    requires ValidCatalog(cat) && n < |cat| && cat[n].revision == U64_MAX && IsActive(cat[n], U64_MAX, now)
    ensures var off := Mutate(cat, SetEnabled(cat[n].id, false, now));
            && off.Some? && !Active(Snap(off.value, now), cat[n].id, U64_MAX)
            && var on := Mutate(off.value, SetEnabled(cat[n].id, true, now));
               on.Some? && Active(Snap(on.value, now), cat[n].id, U64_MAX)
  {
    var id := cat[n].id;
    OneHolder(cat, n, id);
    var off := cat[n := cat[n].(disabled := true)];
    assert Mutate(cat, SetEnabled(id, false, now)) == Some(off);
    OneHolder(off, n, id);
    var on := off[n := cat[n].(disabled := false)];
    assert Mutate(off, SetEnabled(id, true, now)) == Some(on);
    assert IsActive(on[n], U64_MAX, now);
  }

  /** A revocation time, once set, never changes. */
  lemma {:induction false} RevokedForever(h: seq<Snap>, i: nat, j: nat, n: nat)
    requires Run(h) && i <= j < |h| && n < |h[i].cat| && h[i].cat[n].revoked.Some?
    ensures n < |h[j].cat| && h[j].cat[n].id == h[i].cat[n].id && h[j].cat[n].revoked == h[i].cat[n].revoked
  {
    RunLater(h, i, j);
  }

  // ---- The manager ----------------------------------------------------------------------------

  // What is written: everything but the last-used times.
  function Stripped(cat: Catalog): (r: Catalog) { seq(|cat|, i requires 0 <= i < |cat| => cat[i].(lastUsed := None)) }

  ghost predicate Written(cat: Catalog, file: Catalog) {
    |file| == |cat| && forall i :: 0 <= i < |cat| ==> WrittenOne(cat[i], file[i])
  }

  ghost predicate WrittenOne(c: Credential, d: Credential) { d.lastUsed.None? && c == d.(lastUsed := c.lastUsed) }

  lemma StrippedWritten(cat: Catalog)
    ensures Written(cat, Stripped(cat))
  {
  }

  // The rest of the configuration: whether it loads and validates, whether external
  // authentication is set up, whether keys still work beside it, and whether its directory
  // lists, and would admit, an administrator.
  datatype Outside = Outside(valid: bool, external: bool, bearer: bool, listed: bool, admitted: bool)

  // Whether the file write succeeds, and the rest of the configuration.
  datatype Io = Io(write: bool, outside: Outside)

  datatype Failure = Invalid | Disabled | Revoked | Expired

  // The last credential with this verifier.
  predicate LastWith(cat: Catalog, verifier: nat, i: nat) {
    i < |cat| && cat[i].verifier == verifier && forall j :: i < j < |cat| ==> cat[j].verifier != verifier
  }

  // The operation takes away a usable administrator.
  predicate RemovesAdministrator(cat: Catalog, op: Op) {
    && (op.Revoke? || (op.SetEnabled? && !op.enabled))
    && exists i :: 0 <= i < |cat| && cat[i].id == op.id && cat[i].role == Administrator &&
                   !cat[i].secretPending && IsActive(cat[i], cat[i].revision, op.now)
  }

  // The first reason against a credential, in the order they are looked at.
  function Judged(c: Credential, now: int): (r: Result<Credential, Failure>)
    ensures r.Ok? <==> IsActive(c, c.revision, now)
    ensures r != Err(Invalid) && (r.Ok? ==> r.value == c)
  {
    if c.revoked.Some? then Err(Revoked) else if c.disabled then Err(Disabled)
    else if c.expires.Some? && c.expires.value <= now then Err(Expired) else Ok(c)
  }

  // When a guarded operation happens.
  function RemovalTime(op: Op): (now: int) { if op.Revoke? || op.SetEnabled? then op.now else 0 }

  // An administrator's key that works now.
  predicate Usable(c: Credential, now: int) {
    c.role == Administrator && !c.secretPending && IsActive(c, c.revision, now)
  }

  // One that also never expires.
  predicate Durable(c: Credential) {
    c.role == Administrator && !c.secretPending && c.expires.None? && !c.disabled && c.revoked.None?
  }

  // has_current_administrator
  predicate HasAdministrator(cat: Catalog, now: int, o: Outside) {
    || ((o.external ==> o.bearer) &&
        exists i: nat :: i < |cat| && Usable(cat[i], now) && LastWith(cat, cat[i].verifier, i))
    || (o.external && o.listed)
  }

  // A durable key that worked before and still does.
  predicate KeyKept(before: Catalog, after: Catalog, i: nat, j: nat) {
    && i < |before| && Durable(before[i]) && LastWith(before, before[i].verifier, i)
    && j < |after| && Durable(after[j]) && LastWith(after, after[j].verifier, j)
    && after[j].id == before[i].id && after[j].verifier == before[i].verifier
  }

  // preserves_administrator; the transport settings are the same before and after.
  predicate PreservesAdministrator(before: Catalog, after: Catalog, o: Outside) {
    if o.external then o.admitted
    else exists i: nat, j: nat :: i < |before| && j < |after| && KeyKept(before, after, i, j)
  }

  // preserve_credential_administrator, once an administrator is about to be taken away.
  predicate Guard(before: Catalog, after: Catalog, now: int, o: Outside) {
    o.valid && (HasAdministrator(before, now, o) ==> PreservesAdministrator(before, after, o))
  }

  // ---- No lockout -----------------------------------------------------------------------------

  ghost predicate HasDurable(cat: Catalog) {
    exists i: nat :: i < |cat| && Durable(cat[i]) && LastWith(cat, cat[i].verifier, i)
  }

  // A new key is not one that is stored already.
  ghost predicate FreshVerifier(cat: Catalog, op: Op) {
    op.Create? || op.ReplaceKey? ==> forall i :: 0 <= i < |cat| ==> cat[i].verifier != op.verifier
  }

  // The guard as it is without external authentication.
  ghost predicate GuardFree(before: Catalog, after: Catalog, now: int) {
    exists o: Outside :: !o.external && Guard(before, after, now, o)
  }

  // An operation that the manager carries out, or nothing.
  ghost predicate GuardedStep(a: Catalog, b: Catalog) {
    b == a || exists op ::
      FreshId(a, op) && FreshVerifier(a, op) && Mutate(a, op) == Some(b) &&
        (RemovesAdministrator(a, op) ==> GuardFree(a, b, RemovalTime(op)))
  }

  lemma SameGuarded(a: Catalog)
    ensures GuardedStep(a, a)
  {
  }

  lemma StepGuarded(a: Catalog, op: Op, o: Outside)
    requires FreshId(a, op) && FreshVerifier(a, op) && Mutate(a, op).Some? && !o.external
    requires RemovesAdministrator(a, op) ==> Guard(a, Mutate(a, op).value, RemovalTime(op), o)
    ensures GuardedStep(a, Mutate(a, op).value)
  {
    hide Mutate, FreshId, FreshVerifier, RemovesAdministrator, Guard;
    assert RemovesAdministrator(a, op) ==> GuardFree(a, Mutate(a, op).value, RemovalTime(op));
  }

  // A key of an administrator that will always work, and is found by its verifier.
  ghost predicate LastingKey(cat: Catalog, i: nat)
    requires i < |cat|
  {
    && cat[i].role == Administrator && cat[i].expires.None? && !cat[i].disabled && cat[i].revoked.None?
    && !cat[i].secretPending && forall j :: i < j < |cat| ==> cat[j].verifier != cat[i].verifier
  }

  ghost predicate WorkingKey(cat: Catalog, i: nat, now: int)
    requires i < |cat|
  {
    && cat[i].role == Administrator && (cat[i].expires.Some? ==> now < cat[i].expires.value) && !cat[i].disabled
    && cat[i].revoked.None? && !cat[i].secretPending
    && forall j :: i < j < |cat| ==> cat[j].verifier != cat[i].verifier
  }

  ghost predicate SomeWorkingKey(cat: Catalog, now: int) { exists i: nat :: i < |cat| && WorkingKey(cat, i, now) }

  ghost predicate OtherLastingKey(cat: Catalog, id: nat) {
    exists i: nat :: i < |cat| && cat[i].id != id && LastingKey(cat, i)
  }

  // The operation disables or revokes an administrator's key that works.
  ghost predicate LosesKey(cat: Catalog, op: Op) {
    && (op.Revoke? || (op.SetEnabled? && !op.enabled))
    && exists i :: 0 <= i < |cat| && cat[i].id == op.id && cat[i].role == Administrator && !cat[i].secretPending &&
                   !cat[i].disabled && cat[i].revoked.None? && (cat[i].expires.Some? ==> op.now < cat[i].expires.value)
  }

  ghost predicate MayLose(cat: Catalog, id: nat, now: int, o: Outside) {
    && o.valid
    && (if o.external then (o.bearer && SomeWorkingKey(cat, now)) || o.listed ==> o.admitted
        else SomeWorkingKey(cat, now) ==> OtherLastingKey(cat, id))
  }

  lemma RemovalOf(cat: Catalog, op: Op)
    requires RemovesAdministrator(cat, op)
    ensures (op.Revoke? || (op.SetEnabled? && !op.enabled)) && RemovalTime(op) == op.now
  {
  }

  lemma RemovesIs(cat: Catalog, op: Op)
    ensures RemovesAdministrator(cat, op) <==> LosesKey(cat, op)
  {
  }

  lemma RemovedKeys(cat: Catalog, op: Op, i: nat)
    requires ValidCatalog(cat) && (op.Revoke? || (op.SetEnabled? && !op.enabled)) && Mutate(cat, op).Some? && i < |cat|
    ensures var after := Mutate(cat, op).value;
            && |after| == |cat| && after[i].verifier == cat[i].verifier && after[i].id == cat[i].id
            && (after[i] == cat[i] || cat[i].id == op.id) && (cat[i].id == op.id ==> !Durable(after[i]))
  {
    hide ValidLabel, NameTaken;
    MutateFacts(cat, op);
    TargetExact(cat, op, i);
    TargetExact(cat, op, Target(cat, op));
    RevisionFits(cat, Target(cat, op));
    ChangedExact(cat[Target(cat, op)], op);
  }

  /** An administrator's credential may be disabled or revoked exactly when the configuration is
      sound and no administrator could sign in before, or one still can: without external
      authentication, another one whose key does not expire. */
  lemma {:induction false} GuardExact(cat: Catalog, op: Op, now: int, o: Outside)
    requires ValidCatalog(cat) && (op.Revoke? || (op.SetEnabled? && !op.enabled)) && Mutate(cat, op).Some?
    ensures Guard(cat, Mutate(cat, op).value, now, o) <==> MayLose(cat, op.id, now, o)
  {
    hide Mutate, ValidCatalog;
    var after := Mutate(cat, op).value;
    forall i: nat | i < |cat|
      ensures && |after| == |cat| && after[i].verifier == cat[i].verifier && after[i].id == cat[i].id
              && (after[i] == cat[i] || cat[i].id == op.id) && (cat[i].id == op.id ==> !Durable(after[i]))
    {
      RemovedKeys(cat, op, i);
    }
    WorkingIs(cat, now);
    if OtherLastingKey(cat, op.id) {
      var i: nat :| i < |cat| && cat[i].id != op.id && LastingKey(cat, i);
      assert KeyKept(cat, after, i, i);
    }
    if i: nat, j: nat :| i < |cat| && j < |after| && KeyKept(cat, after, i, j) {
      assert LastingKey(cat, i);
    }
  }

  lemma WorkingIs(cat: Catalog, now: int)
    ensures SomeWorkingKey(cat, now) <==>
            exists i: nat :: i < |cat| && Usable(cat[i], now) && LastWith(cat, cat[i].verifier, i)
  {
    if i: nat :| i < |cat| && WorkingKey(cat, i, now) {
      assert Usable(cat[i], now) && LastWith(cat, cat[i].verifier, i);
    }
    if i: nat :| i < |cat| && Usable(cat[i], now) && LastWith(cat, cat[i].verifier, i) {
      assert WorkingKey(cat, i, now);
    }
  }

  // The changed credential stays a durable administrator unless it is disabled or revoked.
  lemma ChangedDurable(c: Credential, op: Op)
    requires Durable(c) && Changed(c, op).Some? && !op.Revoke? && !(op.SetEnabled? && !op.enabled)
    ensures Durable(Changed(c, op).value)
    ensures Changed(c, op).value.verifier == if op.ReplaceKey? then op.verifier else c.verifier
  {
  }

  lemma {:induction false} StillLast(cat: Catalog, op: Op, i: nat)
    requires FreshVerifier(cat, op) && Mutate(cat, op).Some? && i < |cat| && LastWith(cat, cat[i].verifier, i)
    requires op.ReplaceKey? ==> i != Target(cat, op)
    ensures LastWith(Mutate(cat, op).value, cat[i].verifier, i)
  {
    hide ValidLabel, NameTaken;
    if !op.Create? {
      var n := Target(cat, op);
      assert Changed(cat[n], op).value.verifier == if op.ReplaceKey? then op.verifier else cat[n].verifier;
    }
  }

  lemma {:induction false} DurableStays(cat: Catalog, op: Op, i: nat)
    requires ValidCatalog(cat) && FreshVerifier(cat, op) && Mutate(cat, op).Some? && !RemovesAdministrator(cat, op)
    requires i < |cat| && Durable(cat[i]) && LastWith(cat, cat[i].verifier, i)
    ensures HasDurable(Mutate(cat, op).value)
  {
    hide ValidLabel, NameTaken, LastWith, Mutate;
    var after := Mutate(cat, op).value;
    MutateFacts(cat, op);
    if op.Create? || i != Target(cat, op) {
      StillLast(cat, op, i);
      assert after[i] == cat[i];
    } else {
      ChangedDurable(cat[i], op);
      assert after[i] == Changed(cat[i], op).value;
      if op.ReplaceKey? {
        ReplacedIsLast(cat, op);
      } else {
        StillLast(cat, op, i);
      }
    }
  }

  lemma MutateFacts(cat: Catalog, op: Op)
    requires Mutate(cat, op).Some?
    ensures var after := Mutate(cat, op).value;
            if op.Create? then
              |after| == |cat| + 1 && after[..|cat|] == cat && forall i :: 0 <= i < |cat| ==> after[i] == cat[i]
            else
              var n := Target(cat, op);
              n < |cat| && Changed(cat[n], op).Some? && after == cat[n := Changed(cat[n], op).value]
  {
  }

  lemma ReplacedIsLast(cat: Catalog, op: Op)
    requires op.ReplaceKey? && FreshVerifier(cat, op) && Mutate(cat, op).Some?
    ensures LastWith(Mutate(cat, op).value, op.verifier, Target(cat, op))
  {
    MutateFacts(cat, op);
  }

  /** Whoever keeps keys only is never locked out: while a durable administrator's key works,
      every operation the manager carries out leaves one that works. */
  lemma {:induction false} NeverLockedOut(h: seq<Catalog>, i: nat, j: nat)
    requires i <= j < |h| && (forall k :: 0 <= k < |h| ==> ValidCatalog(h[k])) &&
             (forall k :: 0 <= k < |h| - 1 ==> GuardedStep(h[k], h[k + 1]))
    requires HasDurable(h[i])
    ensures HasDurable(h[j])
    decreases j - i
  {
    hide ValidCatalog, HasDurable, GuardedStep;
    if i < j {
      NeverLockedOut(h, i, j - 1);
      assert GuardedStep(h[j - 1], h[j - 1 + 1]);
      GuardedKeeps(h[j - 1], h[j]);
    }
  }

  lemma {:induction false} GuardedKeeps(a: Catalog, b: Catalog)
    requires ValidCatalog(a) && GuardedStep(a, b) && HasDurable(a)
    ensures HasDurable(b)
  {
    hide ValidCatalog, Mutate, FreshId, FreshVerifier, RemovesAdministrator, LastWith;
    if b != a {
      var op :| FreshId(a, op) && FreshVerifier(a, op) && Mutate(a, op) == Some(b) &&
          (RemovesAdministrator(a, op) ==> GuardFree(a, b, RemovalTime(op)));
      var i: nat :| i < |a| && Durable(a[i]) && LastWith(a, a[i].verifier, i);
      if RemovesAdministrator(a, op) {
        var now := RemovalTime(op);
        assert Usable(a[i], now);
        var o: Outside :| !o.external && Guard(a, b, now, o);
        assert HasAdministrator(a, now, o);
        var k: nat, j: nat :| k < |a| && j < |b| && KeyKept(a, b, k, j);
      } else {
        DurableStays(a, op, i);
      }
    }
  }

  /** And such a key signs in at any time. */
  lemma DurableSignsIn(cat: Catalog, i: nat, now: int)
    requires i < |cat| && Durable(cat[i])
    ensures Judged(cat[i], now) == Ok(cat[i])
  {
  }

  class AccessManager {
    var catalog: Catalog
    // The configuration file's section; None for a manager without a file.
    var stored: Option<Catalog>

    ghost predicate Valid()
      reads this
    {
      ValidCatalog(catalog) && (stored.Some? ==> stored.value == Stripped(catalog))
    }

    constructor (cat: Catalog, persistent: bool)
      requires ValidCatalog(cat)
      ensures Valid() && catalog == cat && (stored.Some? <==> persistent)
    {
      catalog := cat;
      stored := if persistent then Some(Stripped(cat)) else None;
    }

    // The mutation a closure makes to the catalog in memory.
    method ChangeCatalog(op: Op) returns (ok: bool)
      modifies this`catalog
      ensures ok <==> Mutate(old(catalog), op).Some?
      ensures catalog == if ok then Mutate(old(catalog), op).value else old(catalog)
    {
      hide ValidLabel;
      if op.Create? {
        if op.expires.Some? && op.expires.value <= op.now {
          return false;
        }
        if !ValidLabel(op.name, 64) || |catalog| >= MAX_CREDENTIALS || NameTaken(catalog, op.name) {
          return false;
        }
        catalog := catalog + [Credential(op.id, op.name, op.role, Some(CameraAccess(true, {}, {})), op.verifier, op.now,
                                         None, None, op.expires, false, None, 1, false, false)];
        return true;
      }
      var n := Target(catalog, op);
      if n == |catalog| {
        return false;
      }
      var c := Changed(catalog[n], op);
      if c.None? {
        return false;
      }
      catalog := catalog[n := c.value];
      return true;
    }

    /** mutate_catalog_guarded: memory and file change together or not at all. */
    method Execute(op: Op, io: Io) returns (ok: bool)
      requires Valid() && FreshId(catalog, op) && !op.Touch?
      modifies this
      ensures Valid() && (stored.Some? <==> old(stored).Some?)
      ensures ok ==> Effect(old(catalog), op, catalog)
      ensures stored.Some? ==> Written(catalog, stored.value)
      ensures ok <==> Admits(old(catalog), op) && (old(stored).Some? ==> io.write) &&
                      (LosesKey(old(catalog), op) ==> MayLose(old(catalog), op.id, op.now, io.outside))
      ensures ok ==> Mutate(old(catalog), op) == Some(catalog)
      ensures !ok ==> catalog == old(catalog) && stored == old(stored)
      ensures forall now, later :: now <= later ==> StepAllowed(Snap(old(catalog), now), Snap(catalog, later))
      ensures FreshVerifier(old(catalog), op) && !io.outside.external ==> GuardedStep(old(catalog), catalog)
    {
      hide Mutate, ValidCatalog, FreshId, FreshVerifier, RemovesAdministrator, Stripped, Guard, GuardedStep, Admits,
        Effect, Written, LosesKey, MayLose;
      var previous := catalog;
      MutateExact(previous, op);
      RemovesIs(previous, op);
      if Mutate(previous, op).Some? && RemovesAdministrator(previous, op) {
        RemovalOf(previous, op);
        GuardExact(previous, op, op.now, io.outside);
      }
      StrippedWritten(previous);
      SameGuarded(previous);
      var changed := ChangeCatalog(op);
      if !changed {
        catalog := previous;
        return false;
      }
      MutateLater(previous, op);
      if RemovesAdministrator(previous, op) && !Guard(previous, catalog, RemovalTime(op), io.outside) {
        catalog := previous;
        return false;
      }
      if FreshVerifier(previous, op) && !io.outside.external { StepGuarded(previous, op, io.outside); }
      if stored.Some? {
        if !io.write {
          catalog := previous;
          return false;
        }
        stored := Some(Stripped(catalog));
        StrippedWritten(catalog);
      }
      return true;
    }

    /** The credential half of authenticate: the last credential with this verifier, if it is
        usable now. Only its last-used time may change, and only in memory. */
    method Authenticate(verifier: nat, now: int) returns (r: Result<Credential, Failure>)
      requires Valid()
      modifies this`catalog
      ensures Valid()
      ensures r == Err(Invalid) <==> forall i :: 0 <= i < |old(catalog)| ==> old(catalog)[i].verifier != verifier
      ensures forall i: nat :: LastWith(old(catalog), verifier, i) ==> r == Judged(old(catalog)[i], now)
      ensures r.Ok? ==> r.value in old(catalog) && r.value.verifier == verifier &&
                        IsActive(r.value, r.value.revision, now) &&
                        Mutate(old(catalog), Touch(r.value.id, now)) == Some(catalog)
      ensures r.Ok? ==> Effect(old(catalog), Touch(r.value.id, now), catalog)
      ensures r.Err? ==> catalog == old(catalog)
      ensures forall i: nat :: LastWith(old(catalog), verifier, i) ==>
                var c := old(catalog)[i];
                && (r == Err(Revoked) <==> c.revoked.Some?)
                && (r == Err(Disabled) <==> c.revoked.None? && c.disabled)
                && (r == Err(Expired) <==> c.revoked.None? && !c.disabled && c.expires.Some? && c.expires.value <= now)
                && (r.Ok? ==> r.value == c)
    {
      hide ValidCatalog, Effect;
      var matched := MatchingCredential(verifier);
      if matched.None? {
        return Err(Invalid);
      }
      var c := catalog[matched.value];
      assert c in catalog;
      if c.revoked.Some? {
        return Err(Revoked);
      }
      if c.disabled {
        return Err(Disabled);
      }
      if c.expires.Some? && c.expires.value <= now {
        return Err(Expired);
      }
      TouchAt(catalog, matched.value, now);
      MutateExact(catalog, Touch(c.id, now));
      if c.lastUsed.None? || now - c.lastUsed.value >= LAST_USED_WRITE_INTERVAL_MS {
        catalog := catalog[matched.value := c.(lastUsed := Some(now))];
      }
      return Ok(c);
    }

    // Scans them all and keeps the last match.
    method MatchingCredential(verifier: nat) returns (r: Option<nat>)
      ensures r.None? <==> forall i :: 0 <= i < |catalog| ==> catalog[i].verifier != verifier
      ensures r.Some? ==> r.value < |catalog| && catalog[r.value].verifier == verifier &&
                          forall i :: r.value < i < |catalog| ==> catalog[i].verifier != verifier
    {
      r := None;
      for i := 0 to |catalog|
        invariant r.None? <==> forall j :: 0 <= j < i ==> catalog[j].verifier != verifier
        invariant r.Some? ==> r.value < i && catalog[r.value].verifier == verifier &&
                              forall j :: r.value < j < i ==> catalog[j].verifier != verifier
      {
        if catalog[i].verifier == verifier {
          r := Some(i);
        }
      }
    }
  }

  lemma TouchAt(cat: Catalog, n: nat, now: int)
    requires ValidCatalog(cat) && n < |cat|
    ensures var c := cat[n];
            var d := if c.lastUsed.None? || now - c.lastUsed.value >= LAST_USED_WRITE_INTERVAL_MS then
              c.(lastUsed := Some(now)) else c;
            && Mutate(cat, Touch(c.id, now)) == Some(cat[n := d])
            && ValidCatalog(cat[n := d]) && Stripped(cat[n := d]) == Stripped(cat) && cat[n := c] == cat
  {
    OneHolder(cat, n, cat[n].id);
  }
}

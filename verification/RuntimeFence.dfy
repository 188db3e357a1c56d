/** The revision fence between the camera loop and the server. Both write one status under a
    lock; the loop must never put an older transition over a newer one. */
module RuntimeFence {
  import opened Base
  import opened NameOrder
  import opened Profiles

  datatype AppState = Pending | Applied | Degraded

  datatype Application = Application(id: string, state: AppState, policy: Policy)

  datatype Status = Status(revision: nat, active: Option<string>, cameras: map<string, Application>)

  // `media` stands for every setting the model does not look at, `events` for the event settings.
  datatype CameraDef = CameraDef(recording: RecordingMode, routable: bool, media: int, events: int)

  // Nothing but the event settings differs.
  predicate EventOnlyUpdate(previous: CameraDef, next: CameraDef) {
    previous.events != next.events && previous.(events := next.events) == next
  }

  ghost predicate OnlyEventsDiffer(a: CameraDef, b: CameraDef) {
    a.events != b.events && a.recording == b.recording && a.routable == b.routable && a.media == b.media
  }

  // ---- Every run: one snapshot per lock region --------------------------------------------

  datatype Actor = Server | Begin | LoopWrite | Start | Stop | RestartEvents(ip: Ip)

  // Who acted, and the state it left: the cameras with a worker group, and the number of the
  // event workers in each.
  datatype Snap = Snap(actor: Actor, accepted: Registry, status: Status, workers: set<Ip>, events: map<Ip, nat>)

  ghost predicate KeepsEvents(a: Snap, b: Snap) {
    forall ip :: ip in a.events && ip in b.events ==> b.events[ip] == a.events[ip]
  }

  ghost predicate StepAllowed(a: Snap, b: Snap) {
    match b.actor
    case Server =>
      && b.accepted == a.accepted && b.workers == a.workers && KeepsEvents(a, b)
      && a.status.revision <= b.status.revision
    case Begin =>
      && (b.accepted.revision > a.accepted.revision || b.accepted == a.accepted)
      && a.status.revision <= b.accepted.revision == b.status.revision && b.workers == a.workers && KeepsEvents(a, b)
    case LoopWrite =>
      && b.accepted == a.accepted && b.workers == a.workers && KeepsEvents(a, b)
      && a.status.revision <= b.status.revision <= a.accepted.revision
    case Start =>
      && b.accepted == a.accepted && b.status == a.status && a.workers <= b.workers && KeepsEvents(a, b)
      && a.status.revision <= a.accepted.revision
    case Stop => b.accepted == a.accepted && b.status == a.status && b.workers <= a.workers && KeepsEvents(a, b)
    case RestartEvents(ip) =>
      && b.accepted == a.accepted && b.status == a.status && b.workers == a.workers && ip in a.workers
      && forall j :: j in a.events && j in b.events && j != ip ==> b.events[j] == a.events[j]
  }

  // A run of the system after startup.
  ghost predicate Run(h: seq<Snap>) {
    && (forall i :: 0 <= i < |h| ==> h[i].events.Keys == h[i].workers)
    && (forall i :: 0 <= i < |h| - 1 ==> StepAllowed(h[i], h[i + 1]))
  }

  /** Over every run, neither the status revision nor the accepted revision goes back, and an
      accepted revision names one registry. */
  lemma {:induction false} RevisionsNeverDecrease(h: seq<Snap>, i: nat, j: nat)
    requires Run(h) && i <= j < |h|
    ensures h[i].status.revision <= h[j].status.revision
    ensures h[i].accepted.revision <= h[j].accepted.revision
    ensures h[i].accepted.revision == h[j].accepted.revision ==> h[i].accepted == h[j].accepted
    decreases j - i
  {
    if i < j {
      RevisionsNeverDecrease(h, i, j - 1);
      assert StepAllowed(h[j - 1], h[j - 1 + 1]);
    }
  }

  /** A status newer than anything the loop has accepted stays exactly as it is until the
      server itself changes it, whatever the loop does in between. */
  lemma {:induction false} NewerStatusSurvives(h: seq<Snap>, i: nat, j: nat)
    requires Run(h) && i <= j < |h|
    requires h[j].accepted.revision < h[i].status.revision
    requires forall k :: i < k <= j ==> h[k].actor != Server
    ensures h[j].status == h[i].status
    decreases j - i
  {
    if i < j {
      assert StepAllowed(h[j - 1], h[j - 1 + 1]);
      RevisionsNeverDecrease(h, j - 1, j);
      RevisionsNeverDecrease(h, i, j - 1);
      NewerStatusSurvives(h, i, j - 1);
    }
  }

  /** While a newer revision is pending no camera gets a worker group. */
  lemma {:induction false} NoStartWhileSuperseded(h: seq<Snap>, i: nat, j: nat)
    requires Run(h) && i <= j < |h|
    requires h[j].accepted.revision < h[i].status.revision
    ensures h[j].workers <= h[i].workers
    decreases j - i
  {
    if i < j {
      assert StepAllowed(h[j - 1], h[j - 1 + 1]);
      RevisionsNeverDecrease(h, j - 1, j);
      RevisionsNeverDecrease(h, i, j - 1);
      NoStartWhileSuperseded(h, i, j - 1);
    }
  }

  /** Event workers are not fenced: while a newer revision is pending, the event workers of a
      running camera are replaced exactly when its event settings alone are changed. */
  lemma {:induction false} EventsChangeByRestart(h: seq<Snap>, i: nat, j: nat, ip: Ip)
    requires Run(h) && i <= j < |h| && h[j].accepted.revision < h[i].status.revision && ip in h[j].workers
    requires forall k :: i < k <= j ==> h[k].actor != RestartEvents(ip)
    ensures ip in h[i].workers && h[j].events[ip] == h[i].events[ip]
    decreases j - i
  {
    if i < j {
      assert StepAllowed(h[j - 1], h[j - 1 + 1]);
      RevisionsNeverDecrease(h, j - 1, j);
      RevisionsNeverDecrease(h, i, j - 1);
      NoStartWhileSuperseded(h, i, j - 1);
      NoStartWhileSuperseded(h, j - 1, j);
      EventsChangeByRestart(h, i, j - 1, ip);
    }
  }

  // ---- The loop -----------------------------------------------------------------------------

  function BaseOf(camera: CameraDef): (b: BasePolicy) { BasePolicy(true, camera.recording, false, true) }

  // An active target that no configured camera answers to.
  function MissingApplications(r: Registry, configured: set<string>): (m: map<string, Application>) {
    map k | k in ActiveTargets(r) && k !in configured ::
      Application(k, Degraded, ResolvePolicy(BasePolicy(true, EventBoost, false, true), Some(ActiveTargets(r)[k])))
  }

  // Configured cameras keep their entry; every other entry is an active target gone missing.
  function Reconciled(m: map<string, Application>, r: Registry, configured: set<string>)
    : (n: map<string, Application>)
  {
    (map id | id in m && id in configured :: m[id]) + MissingApplications(r, configured)
  }

  function CameraId(ids: map<Ip, string>, show: Ip -> string, ip: Ip): (id: string) {
    if ip in ids then ids[ip] else show(ip)
  }

  function PolicyOf(r: Registry, id: string, camera: CameraDef, privacy: bool): (p: Policy) {
    var profile := if id in ActiveTargets(r) then Some(ActiveTargets(r)[id]) else None;
    var p := ResolvePolicy(BaseOf(camera), profile);
    if !privacy then p
    else p.(privacy := true,
            privacySource := if profile.Some? && profile.value.privacy == Some(true) then FromProfile else FromBase)
  }

  // ---- What a profile asks for, read off the registry ------------------------------------------

  ghost predicate Overrides(r: Registry, id: string, o: Override) {
    && r.active.Some? && r.active.value in r.profiles && id in r.profiles[r.active.value].cameras
    && o == r.profiles[r.active.value].cameras[id]
  }

  ghost predicate TurnedOff(r: Registry, id: string) {
    exists o :: Overrides(r, id, o) && o.availability == Some(false)
  }

  ghost predicate MadePrivate(r: Registry, id: string) { exists o :: Overrides(r, id, o) && o.privacy == Some(true) }

  ghost predicate Muted(r: Registry, id: string) { exists o :: Overrides(r, id, o) && o.suppressed == Some(true) }

  // The mode of a camera whose own mode is `own`.
  ghost predicate RecordsIn(r: Registry, id: string, own: RecordingMode, mode: RecordingMode) {
    if own == Off || MadePrivate(r, id) || TurnedOff(r, id) then mode == Off
    else
      && (forall o :: Overrides(r, id, o) && o.recording.Some? ==> mode == o.recording.value)
      && ((forall o :: Overrides(r, id, o) ==> o.recording.None?) ==> mode == own)
  }

  // A policy that does what the active profile, the camera's own mode and active privacy ask.
  ghost predicate Obeys(r: Registry, id: string, own: RecordingMode, privacy: bool, p: Policy) {
    && (p.available <==> !TurnedOff(r, id))
    && (p.privacy <==> privacy || MadePrivate(r, id))
    && (p.notifications <==> !Muted(r, id))
    && RecordsIn(r, id, own, p.recording)
    && (p.availableSource == FromProfile <==> exists o :: Overrides(r, id, o) && o.availability.Some?)
    && (p.notificationsSource == FromProfile <==> exists o :: Overrides(r, id, o) && o.suppressed.Some?)
    && (p.privacySource == FromProfile <==>
        MadePrivate(r, id) || (!privacy && exists o :: Overrides(r, id, o) && o.privacy.Some?))
    && (p.recordingSource == FromProfile <==>
        own != Off && (MadePrivate(r, id) || TurnedOff(r, id) || exists o :: Overrides(r, id, o) && o.recording.Some?))
  }

  /** The policy resolved for a camera is the one its profile asks for. */
  lemma PolicyObeys(r: Registry, id: string, camera: CameraDef, privacy: bool)
    ensures Obeys(r, id, camera.recording, privacy, PolicyOf(r, id, camera, privacy))
  {
    if id in ActiveTargets(r) { assert Overrides(r, id, ActiveTargets(r)[id]); }
  }

  // What becomes of the recording a camera is configured for: there is no store, the request
  // fails, or it is made and acknowledged in time or not.
  datatype Recording = Unrecorded | Refused | Requested(acknowledged: bool)

  // The camera is recorded, or there is nothing to record to.
  ghost predicate Recorded(rec: Recording) { rec.Unrecorded? || (rec.Requested? && rec.acknowledged) }

  // From `from` on the loop has told of the camera: as applied only if it runs as it should
  // and is recorded, if it is, and then only in the last word.
  ghost predicate NeverEarly(h: seq<Snap>, from: nat, id: string, ok: bool, rec: Recording) {
    forall k :: from <= k < |h| && h[k].actor == LoopWrite ==>
      && id in h[k].status.cameras
      && (h[k].status.cameras[id].state == Applied ==>
            ok && (rec.Unrecorded? || (rec.Requested? && rec.acknowledged && k == |h| - 1)))
  }

  // So far it has not told of it as applied.
  ghost predicate Quiet(h: seq<Snap>, from: nat, id: string) {
    forall k :: from <= k < |h| && h[k].actor == LoopWrite ==>
      id in h[k].status.cameras && h[k].status.cameras[id].state != Applied
  }

  lemma StillQuiet(h: seq<Snap>, from: nat, id: string, more: seq<Snap>)
    requires Quiet(h, from, id) && h <= more && forall k :: |h| <= k < |more| ==> more[k].actor != LoopWrite
    ensures Quiet(more, from, id)
  {
    forall k | from <= k < |more| && more[k].actor == LoopWrite
      ensures id in more[k].status.cameras && more[k].status.cameras[id].state != Applied
    {
      assert more[k] == h[k];
    }
  }

  lemma NotYetSaid(h: seq<Snap>, id: string)
    ensures Quiet(h, |h|, id)
  {
  }

  lemma SaidNothing(h: seq<Snap>, more: seq<Snap>, id: string, ok: bool, rec: Recording)
    requires h <= more && forall k :: |h| <= k < |more| ==> more[k].actor != LoopWrite
    ensures NeverEarly(more, |h|, id, ok, rec)
  {
  }

  lemma SaidSince(h: seq<Snap>, began: seq<Snap>, more: seq<Snap>, id: string, ok: bool, rec: Recording)
    requires h <= began <= more && forall k :: |h| <= k < |began| ==> began[k].actor != LoopWrite
    requires NeverEarly(more, |began|, id, ok, rec)
    ensures NeverEarly(more, |h|, id, ok, rec)
  {
    forall k | |h| <= k < |began| ensures more[k].actor != LoopWrite { assert more[k] == began[k]; }
  }

  lemma LastWord(h: seq<Snap>, from: nat, id: string, snap: Snap, ok: bool, rec: Recording)
    requires Quiet(h, from, id) && from <= |h|
    ensures NeverEarly(h, from, id, ok, rec)
    ensures id in snap.status.cameras && snap.status.cameras[id].state != Applied ==> Quiet(h + [snap], from, id)
    ensures id in snap.status.cameras &&
            (snap.status.cameras[id].state == Applied ==> ok && (rec == Unrecorded || rec == Requested(true))) ==>
              NeverEarly(h + [snap], from, id, ok, rec)
  {
  }

  // The state reported while an acknowledgement is awaited, and the one reported after.
  function FirstState(rec: Recording): (s: AppState) {
    match rec
    case Unrecorded => Applied
    case Refused => Degraded
    case Requested(_) => Pending
  }

  function FinalState(rec: Recording): (s: AppState) {
    if rec == Requested(true) || rec == Unrecorded then Applied else Degraded
  }

  // What the loop cannot control: the server's writes between two lock regions (one stands
  // for any number), active privacy, and the recording of each camera.
  datatype World = World(server: nat -> Option<Status>, privacy: Ip -> bool, recording: Ip -> Recording)

  // Every worker group has event workers, numbered below the count of all.
  ghost predicate Numbered(workers: set<Ip>, events: map<Ip, nat>, count: nat) {
    events.Keys == workers && forall ip :: ip in events ==> events[ip] < count
  }

  function Interfered(s: Status, write: Option<Status>): (t: Status)
    ensures s.revision <= t.revision
  {
    if write.Some? && s.revision <= write.value.revision then write.value else s
  }

  function Refreshed(a: Application, failed: string -> bool): (b: Application) {
    if a.state == Applied && a.policy.recording != Off && failed(a.id) then a.(state := Degraded) else a
  }

  // The registries that begin_runtime_profiles takes over.
  ghost predicate Acceptable(profiles: Registry, s: Status, accepted: Registry) {
    ValidRegistry(profiles) && s.revision <= profiles.revision &&
      (profiles.revision > accepted.revision || profiles == accepted)
  }

  class KeepPeekLoop {
    const show: Ip -> string
    var status: Status
    var registry: Registry
    var ids: map<Ip, string>
    var definitions: map<Ip, CameraDef>
    // The cameras with a worker group, the event workers each runs, and how many there were.
    var workers: set<Ip>
    var events: map<Ip, nat>
    var eventWorkers: nat
    // The status entry the last recording scan ended with.
    var cursor: Option<string>
    ghost var history: seq<Snap>

    ghost predicate Valid()
      reads this
    {
      && Run(history) && history != []
      && Numbered(workers, events, eventWorkers)
      && var last := history[|history| - 1];
         last.accepted == registry && last.status == status && last.workers == workers && last.events == events
    }

    // set_runtime_profiles, the startup-only setter.
    constructor (show: Ip -> string, profiles: Registry, ids: map<Ip, string>)
      ensures Valid() && registry == profiles && status == Status(profiles.revision, profiles.active, map[])
      ensures this.show == show && this.ids == ids && definitions == map[] && workers == {}
    {
      this.show, registry, this.ids := show, profiles, ids;
      status := Status(profiles.revision, profiles.active, map[]);
      definitions, workers, events, eventWorkers, cursor := map[], {}, map[], 0, None;
      history := [Snap(Begin, profiles, Status(profiles.revision, profiles.active, map[]), {}, map[])];
    }

    function Id(ip: Ip): (id: string)
      reads this`ids
    {
      CameraId(ids, show, ip)
    }

    function ConfiguredIds(): (s: set<string>)
      reads this`ids, this`definitions
    {
      set ip | ip in definitions :: Id(ip)
    }

    function Available(ip: Ip): (b: bool)
      requires ip in definitions
      reads this`ids, this`definitions, this`registry
    {
      PolicyOf(registry, Id(ip), definitions[ip], false).available
    }

    // The camera runs exactly when its policy makes it available and it could be started.
    ghost predicate Aligned(ip: Ip, before: set<Ip>)
      requires ip in definitions
      reads this`workers, this`ids, this`definitions, this`registry
    {
      ip in workers <==> Available(ip) && (definitions[ip].routable || ip in before)
    }

    // The entry is that of a configured camera, with the policy resolved for it.
    ghost predicate Reported(a: Application, privacy: Ip -> bool)
      reads this`ids, this`definitions, this`registry
    {
      exists ip :: ip in definitions && a.id == Id(ip) &&
        a.policy == PolicyOf(registry, Id(ip), definitions[ip], privacy(ip))
    }

    // The entry tells of camera `ip`, with the worker groups in `w`: the policy its profile asks
    // for, and whether it runs, where it should, and is recorded, if it is.
    ghost predicate Told(a: Application, ip: Ip, world: World, w: set<Ip>)
      requires ip in definitions
      reads this`ids, this`definitions, this`registry
    {
      var id := if ip in ids then ids[ip] else show(ip);
      var rec := world.recording(ip);
      && a.id == id && Obeys(registry, id, definitions[ip].recording, world.privacy(ip), a.policy)
      && a.state == (if (ip in w || TurnedOff(registry, id)) && Recorded(rec) then Applied else Degraded)
    }

    // The entry tells of camera `ip` after it was started or was not.
    ghost predicate StartedAs(a: Application, ip: Ip, ok: bool, world: World)
      requires ip in definitions
      reads this`ids, this`definitions, this`registry
    {
      var id := if ip in ids then ids[ip] else show(ip);
      var rec := world.recording(ip);
      && a.id == id && Obeys(registry, id, definitions[ip].recording, world.privacy(ip), a.policy)
      && a.state == (if ok && Recorded(rec) then Applied else Degraded)
    }

    // The camera runs exactly when the active profile does not turn it off and it could start.
    ghost predicate RunsAsAsked(ip: Ip, before: set<Ip>, w: set<Ip>)
      requires ip in definitions
      reads this`ids, this`definitions, this`registry
    {
      var id := if ip in ids then ids[ip] else show(ip);
      ip in w <==> !TurnedOff(registry, id) && (definitions[ip].routable || ip in before)
    }

    lemma AsAsked(ip: Ip, before: set<Ip>)
      requires ip in definitions
      ensures Available(ip) <==> !TurnedOff(registry, if ip in ids then ids[ip] else show(ip))
      ensures Aligned(ip, before) <==> RunsAsAsked(ip, before, workers)
    {
      PolicyObeys(registry, Id(ip), definitions[ip], false);
    }

    ghost method Log(actor: Actor)
      requires Run(history) && history != [] && Numbered(workers, events, eventWorkers)
      requires StepAllowed(history[|history| - 1], Snap(actor, registry, status, workers, events))
      modifies this`history
      ensures Valid() && history == old(history) + [Snap(actor, registry, status, workers, events)]
    {
      history := history + [Snap(actor, registry, status, workers, events)];
    }

    // The other writer: it only ever raises the revision.
    method Interfere(write: Option<Status>)
      requires Valid()
      modifies this`status, this`history
      ensures Valid() && old(history) <= history && status == Interfered(old(status), write)
      ensures forall k :: |old(history)| <= k < |history| ==> history[k].actor == Server
    {
      if write.Some? && status.revision <= write.value.revision {
        status := write.value;
        Log(Server);
      }
    }

    /** begin_runtime_profiles: one write-locked region. */
    method BeginRuntimeProfiles(profiles: Registry, newIds: Option<map<Ip, string>>, privacy: Ip -> bool)
      returns (ok: bool)
      requires Valid()
      modifies this`status, this`registry, this`ids, this`history
      ensures Valid() && old(history) <= history
      ensures ok <==> Acceptable(profiles, old(status), old(registry))
      ensures !ok ==> status == old(status) && registry == old(registry) && ids == old(ids)
      ensures ok ==> registry == profiles && ids == (if newIds.Some? then newIds.value else old(ids))
      ensures ok ==> status.revision == profiles.revision && status.active == profiles.active
      ensures ok ==> status.cameras.Keys == old(status).cameras.Keys + ConfiguredIds()
      ensures ok ==> forall id :: id in ConfiguredIds() ==>
              status.cameras[id].state == Pending && status.cameras[id].id == id
      ensures ok ==> forall id :: id in old(status).cameras && id !in ConfiguredIds() ==>
                                  status.cameras[id] == old(status).cameras[id]
    {
      hide ValidRegistry, ActiveTargets, PolicyOf, Run, Numbered;
      if !ValidRegistry(profiles) {
        return false;
      }
      if !(profiles.revision > registry.revision || profiles == registry) {
        return false;
      }
      if status.revision > profiles.revision {
        return false;
      }
      if newIds.Some? {
        ids := newIds.value;
      }
      registry := profiles;
      var cameras := MarkPending(status.cameras, privacy);
      status := Status(registry.revision, registry.active, cameras);
      Log(Begin);
      return true;
    }

    // Every configured camera is pending; other entries are left alone.
    method MarkPending(before: map<string, Application>, privacy: Ip -> bool)
      returns (cameras: map<string, Application>)
      ensures cameras.Keys == before.Keys + ConfiguredIds()
      ensures forall id :: id in ConfiguredIds() ==> cameras[id].state == Pending && cameras[id].id == id
      ensures forall id :: id in before && id !in ConfiguredIds() ==> cameras[id] == before[id]
    {
      hide ActiveTargets, PolicyOf, CameraId;
      cameras := before;
      var todo := definitions.Keys;
      while todo != {}
        invariant todo <= definitions.Keys
        invariant before.Keys <= cameras.Keys <= before.Keys + ConfiguredIds()
        invariant forall ip :: ip in definitions && ip !in todo ==>
          Id(ip) in cameras && cameras[Id(ip)].state == Pending && cameras[Id(ip)].id == Id(ip)
        invariant forall id :: id in before && id !in ConfiguredIds() ==> cameras[id] == before[id]
        decreases todo
      {
        var ip :| ip in todo;
        assert Id(ip) in ConfiguredIds();
        var policy := PolicyOf(registry, Id(ip), definitions[ip], privacy(ip));
        cameras := cameras[Id(ip) := Application(Id(ip), Pending, policy)];
        todo := todo - {ip};
      }
    }

    // The check every lock region of the loop begins with.
    predicate Superseded()
      reads this`status, this`registry
    {
      status.revision > registry.revision
    }

    /** start_camera_runtime: workers start inside the read lock that saw the revision. */
    method StartCameraRuntime(ip: Ip) returns (ok: bool)
      requires Valid() && ip in definitions && ip !in workers
      modifies this`workers, this`events, this`eventWorkers, this`history
      ensures Valid() && old(history) <= history
      ensures ok <==> definitions[ip].routable && (Available(ip) ==> !Superseded())
      ensures workers == if ok && Available(ip) then old(workers) + {ip} else old(workers)
      ensures ip in workers ==> !TurnedOff(registry, if ip in ids then ids[ip] else show(ip))
      ensures forall k :: |old(history)| <= k < |history| ==> history[k].actor == Start
    {
      hide Run, PolicyOf, TurnedOff;
      AsAsked(ip, workers);
      if !definitions[ip].routable {
        return false;
      }
      if !Available(ip) {
        return true;
      }
      if Superseded() {
        return false;
      }
      workers, events, eventWorkers := workers + {ip}, events[ip := eventWorkers], eventWorkers + 1;
      Log(Start);
      return true;
    }

    method StopCamera(ip: Ip)
      requires Valid()
      modifies this`workers, this`events, this`history
      ensures Valid() && old(history) <= history && workers == old(workers) - {ip}
    {
      hide Run;
      workers, events := workers - {ip}, events - {ip};
      Log(Stop);
    }

    /** complete_runtime_profiles. */
    method CompleteRuntimeProfiles(applications: map<string, Application>) returns (ok: bool)
      requires Valid()
      modifies this`status, this`history
      ensures Valid() && old(history) <= history
      ensures ok <==> old(status).revision <= registry.revision
      ensures status == if ok then Status(registry.revision, registry.active, applications) else old(status)
    {
      hide Run;
      if Superseded() {
        return false;
      }
      status := Status(registry.revision, registry.active, applications);
      Log(LoopWrite);
      return true;
    }

    /** reconcile_missing_profile_targets. */
    method ReconcileMissingTargets() returns (ok: bool)
      requires Valid()
      modifies this`status, this`history
      ensures Valid() && old(history) <= history
      ensures ok <==> old(status).revision <= registry.revision
      ensures !ok ==> status == old(status)
      ensures ok ==> status.revision == old(status).revision && status.active == old(status).active
      ensures ok ==> status.cameras == Reconciled(old(status).cameras, registry, ConfiguredIds())
    {
      hide Run, MissingApplications;
      var configured := ConfiguredIds();
      var missing := MissingApplications(registry, configured);
      if Superseded() {
        return false;
      }
      var kept := map id | id in status.cameras && id in configured :: status.cameras[id];
      assert kept + missing == Reconciled(status.cameras, registry, configured);
      status := status.(cameras := kept + missing);
      Log(LoopWrite);
      return true;
    }

    /** record_camera_runtime_state. */
    method RecordCameraState(application: Application) returns (ok: bool)
      requires Valid()
      modifies this`status, this`history
      ensures Valid() && old(history) <= history
      ensures ok <==> old(status).revision <= registry.revision
      ensures ok ==> status == Status(registry.revision, registry.active,
                                      old(status).cameras[application.id := application])
      ensures !ok ==> status == old(status)
      ensures history == if ok then old(history) + [Snap(LoopWrite, registry, status, workers, events)]
                         else old(history)
    {
      hide Run;
      if Superseded() {
        return false;
      }
      status := Status(registry.revision, registry.active, status.cameras[application.id := application]);
      Log(LoopWrite);
      return true;
    }

    /** apply_runtime_profiles_inner, with the server free to write between any two lock
        regions. If it returns applications, no newer transition got in: the status lists the
        configured cameras and the missing targets and nothing else, and exactly the available
        cameras run (one whose route is invalid keeps the workers it had). */
    method ApplyRuntimeProfiles(profiles: Registry, newIds: Option<map<Ip, string>>, world: World)
      returns (r: Option<map<string, Application>>)
      requires Valid() && workers <= definitions.Keys
      modifies this`status, this`registry, this`ids, this`workers, this`events, this`eventWorkers, this`history
      ensures Valid() && old(history) <= history && workers <= definitions.Keys
      ensures r.Some? ==> Acceptable(profiles, old(status), old(registry)) && !Superseded()
      ensures r.None? ==> !Acceptable(profiles, old(status), old(registry)) || Superseded()
      ensures r.Some? ==> registry == profiles && status == Status(profiles.revision, profiles.active, r.value)
      ensures r.Some? ==> status.cameras.Keys == ConfiguredIds() + ActiveTargets(profiles).Keys
      ensures r.Some? ==> forall ip :: ip in definitions ==> Aligned(ip, old(workers))
      // Read off the registry: who runs, which cameras are listed, and what is said of each.
      ensures r.Some? ==> forall ip :: ip in definitions ==> RunsAsAsked(ip, old(workers), workers)
      ensures r.Some? ==> forall id :: Listed(id, status.cameras, world, workers)
    {
      hide ValidRegistry, ActiveTargets, PolicyOf, Run, MissingApplications, CameraId, Available, ReportedBy, Listed,
        Numbered, Interfered, Acceptable, Aligned, RunsAsAsked;
      var began := BeginRuntimeProfiles(profiles, newIds, world.privacy);
      if !began {
        return None;
      }
      var applied, step := ApplyCameras(world);
      if applied.None? {
        return None;
      }
      r := FinishProfiles(applied.value, world.server(step));
      forall id ensures Listed(id, applied.value + MissingApplications(registry, ConfiguredIds()), world, workers) {
        ListedIn(id, applied.value, world, workers);
      }
      forall ip | ip in definitions ensures Aligned(ip, old(workers)) <==> RunsAsAsked(ip, old(workers), workers) {
        AsAsked(ip, old(workers));
      }
    }

    // The map has an entry for exactly the configured cameras and the cameras the active profile
    // names, and each says what it should.
    ghost predicate Listed(id: string, m: map<string, Application>, world: World, w: set<Ip>)
      reads this`ids, this`definitions, this`registry
    {
      && (id in m <==> id in ConfiguredIds() || exists o :: Overrides(registry, id, o))
      && (id in m ==> m[id].id == id)
      && (id in m && id in ConfiguredIds() ==> ReportedBy(m[id], {}, world, w))
      && (id in m && id !in ConfiguredIds() ==>
            m[id].state == Degraded && Obeys(registry, id, EventBoost, false, m[id].policy))
    }

    lemma ListedIn(id: string, applied: map<string, Application>, world: World, w: set<Ip>)
      requires applied.Keys == ConfiguredIds()
      requires forall id :: id in applied ==> applied[id].id == id && ReportedBy(applied[id], {}, world, w)
      ensures Listed(id, applied + MissingApplications(registry, ConfiguredIds()), world, w)
    {
      hide ReportedBy, CameraId, Obeys, MissingApplications, ActiveTargets, ConfiguredIds;
      MissingDegraded(registry, ConfiguredIds());
      MissingKeys(registry, ConfiguredIds());
      TargetIs(registry, id);
    }

    // Adds the missing targets and publishes the result, unless it was superseded.
    method FinishProfiles(applied: map<string, Application>, write: Option<Status>)
      returns (r: Option<map<string, Application>>)
      requires Valid() && applied.Keys == ConfiguredIds()
      modifies this`status, this`history
      ensures Valid() && old(history) <= history
      ensures r.None? <==> Interfered(old(status), write).revision > registry.revision
      ensures r.None? ==> Superseded()
      ensures r.Some? ==> status == Status(registry.revision, registry.active, r.value) && !old(Superseded())
      ensures r.Some? ==> r.value == applied + MissingApplications(registry, ConfiguredIds())
      ensures r.Some? ==> r.value.Keys == ConfiguredIds() + ActiveTargets(registry).Keys
    {
      hide Run, MissingApplications, ActiveTargets, CameraId;
      Interfere(write);
      MissingKeys(registry, ConfiguredIds());
      var applications := applied + MissingApplications(registry, ConfiguredIds());
      var completed := CompleteRuntimeProfiles(applications);
      if !completed {
        return None;
      }
      return Some(applications);
    }

    // One report for every configured camera that is done.
    ghost predicate Collected(m: map<string, Application>, todo: set<Ip>, world: World, w: set<Ip>)
      reads this`ids, this`definitions, this`registry
    {
      && m.Keys <= ConfiguredIds()
      && (forall id :: id in m ==> m[id].id == id && ReportedBy(m[id], todo, world, w))
      && (forall ip :: ip in definitions && ip !in todo ==> Id(ip) in m)
    }

    ghost predicate ReportedBy(a: Application, todo: set<Ip>, world: World, w: set<Ip>)
      reads this`ids, this`definitions, this`registry
    {
      Reported(a, world.privacy) && exists ip :: ip in definitions && ip !in todo && Told(a, ip, world, w)
    }

    lemma NoneCollected(todo: set<Ip>, world: World, w: set<Ip>)
      requires todo == definitions.Keys
      ensures Collected(map[], todo, world, w)
    {
    }

    // The worker group of `ip` alone may have changed.
    lemma StillReported(a: Application, todo: set<Ip>, ip: Ip, world: World, w: set<Ip>, v: set<Ip>)
      requires ReportedBy(a, todo, world, w) && ip in todo && forall j :: j != ip ==> (j in v <==> j in w)
      ensures ReportedBy(a, todo - {ip}, world, v)
    {
      hide Obeys, Reported, TurnedOff;
      var j :| j in definitions && j !in todo && Told(a, j, world, w);
      assert Told(a, j, world, v);
    }

    lemma ReportedNow(a: Application, todo: set<Ip>, ip: Ip, world: World, w: set<Ip>)
      requires ip in definitions && ip !in todo && Reported(a, world.privacy) && Told(a, ip, world, w)
      ensures ReportedBy(a, todo, world, w)
    {
      hide Reported, Told;
    }

    lemma Collect(m: map<string, Application>, todo: set<Ip>, ip: Ip, a: Application, world: World, w: set<Ip>,
                  v: set<Ip>)
      requires ip in definitions && ip in todo && Collected(m, todo, world, w)
      requires a.id == Id(ip) && Reported(a, world.privacy) && Told(a, ip, world, v)
      requires forall j :: j != ip ==> (j in v <==> j in w)
      ensures Collected(m[Id(ip) := a], todo - {ip}, world, v)
    {
      hide ReportedBy, Reported, CameraId, Told;
      assert Id(ip) in ConfiguredIds();
      ReportedNow(a, todo - {ip}, ip, world, v);
      forall id | id in m ensures ReportedBy(m[id], todo - {ip}, world, v) {
        StillReported(m[id], todo, ip, world, w, v);
      }
    }

    lemma AllCollected(m: map<string, Application>, world: World, w: set<Ip>)
      requires Collected(m, {}, world, w)
      ensures m.Keys == ConfiguredIds()
      ensures forall id :: id in m ==> m[id].id == id && ReportedBy(m[id], {}, world, w)
    {
      hide Reported, CameraId, Told;
    }

    // The loop over the configured cameras.
    method ApplyCameras(world: World) returns (r: Option<map<string, Application>>, step: nat)
      requires Valid() && workers <= definitions.Keys
      modifies this`status, this`workers, this`events, this`eventWorkers, this`history
      ensures Valid() && old(history) <= history && workers <= definitions.Keys
      ensures r.None? ==> Superseded()
      ensures r.Some? ==> r.value.Keys == ConfiguredIds()
      ensures r.Some? ==> forall id :: id in r.value ==>
                r.value[id].id == id && ReportedBy(r.value[id], {}, world, workers)
      ensures r.Some? ==> Superseded() || forall ip :: ip in definitions ==> Aligned(ip, old(workers))
    {
      hide PolicyOf, Run, CameraId, Available, Reported, ReportedBy, Told, Numbered, Interfered, Collected,
        ConfiguredIds;
      var applications: map<string, Application> := map[];
      step := 0;
      var todo := definitions.Keys;
      NoneCollected(todo, world, workers);
      while todo != {}
        invariant Valid() && old(history) <= history && workers <= definitions.Keys
        invariant todo <= definitions.Keys
        invariant Collected(applications, todo, world, workers)
        invariant forall ip :: ip in todo ==> (ip in workers <==> ip in old(workers))
        invariant Superseded() || forall ip :: ip in definitions && ip !in todo ==> Aligned(ip, old(workers))
        decreases todo
      {
        var ip :| ip in todo;
        ghost var before := workers;
        var application := ApplyCamera(ip, world, step);
        if application.None? {
          return None, step;
        }
        step := step + 2;
        Collect(applications, todo, ip, application.value, world, before, workers);
        applications := applications[Id(ip) := application.value];
        todo := todo - {ip};
      }
      AllCollected(applications, world, workers);
      return Some(applications), step;
    }

    // One round of the loop: None when a newer transition was seen.
    method ApplyCamera(ip: Ip, world: World, step: nat) returns (r: Option<Application>)
      requires Valid() && ip in definitions
      modifies this`status, this`workers, this`events, this`eventWorkers, this`history
      ensures Valid() && old(history) <= history && old(status).revision <= status.revision
      ensures r.None? <==> Interfered(old(status), world.server(step)).revision > registry.revision
      ensures r.None? ==> Superseded()
      ensures r.Some? ==> r.value.id == Id(ip) && Reported(r.value, world.privacy)
      ensures r.Some? ==> Told(r.value, ip, world, workers)
      ensures forall j :: j != ip ==> (j in workers <==> j in old(workers))
      ensures r.Some? ==> Superseded() || Aligned(ip, old(workers))
    {
      hide Run, PolicyOf, CameraId, Aligned, Obeys, TurnedOff;
      PolicyObeys(registry, Id(ip), definitions[ip], world.privacy(ip));
      AsAsked(ip, workers);
      CameraIdIs(ids, show, ip);
      Interfere(world.server(step));
      // configure_profile_recording
      if Superseded() {
        return None;
      }
      Interfere(world.server(step + 1));
      var ok := SwitchCamera(ip);
      return Some(Application(Id(ip), if ok then FinalState(world.recording(ip)) else Degraded,
                              PolicyOf(registry, Id(ip), definitions[ip], world.privacy(ip))));
    }

    // Brings one camera's workers in line with its policy.
    method SwitchCamera(ip: Ip) returns (ok: bool)
      requires Valid() && ip in definitions
      modifies this`workers, this`events, this`eventWorkers, this`history
      ensures Valid() && old(history) <= history
      ensures forall j :: j != ip ==> (j in workers <==> j in old(workers))
      ensures Superseded() || Aligned(ip, old(workers))
      ensures ok <==> Available(ip) ==> ip in workers
    {
      hide Run, PolicyOf, CameraId;
      if Available(ip) {
        if ip in workers {
          return true;
        }
        ok := StartCameraRuntime(ip);
      } else {
        StopCamera(ip);
        ok := true;
      }
    }

    /** add_camera, for a camera that is not running: its state is written once when it has
        started, and again when its recording was acknowledged or was not. */
    method AddCamera(ip: Ip, camera: CameraDef, world: World) returns (ok: bool)
      requires Valid() && workers <= definitions.Keys
      modifies this`status, this`definitions, this`workers, this`events, this`eventWorkers, this`history
      ensures Valid() && old(history) <= history && workers <= definitions.Keys
      ensures ip in old(workers) ==> !ok && definitions == old(definitions) && workers == old(workers)
      ensures ip !in old(workers) ==> definitions == old(definitions)[ip := camera]
      ensures forall j :: j != ip ==> (j in workers <==> j in old(workers))
      ensures ip in workers && ip !in old(workers) ==> Available(ip) && camera.routable
      ensures ok ==> camera.routable && (ip in workers <==> Available(ip))
      ensures !ok ==> ip in old(workers) || !camera.routable || Superseded()
      ensures ip !in old(workers) && !Superseded() ==>
                && Id(ip) in status.cameras && status.cameras[Id(ip)].id == Id(ip)
                && StartedAs(status.cameras[Id(ip)], ip, ok, world) && Reported(status.cameras[Id(ip)], world.privacy)
      ensures ip !in old(workers) ==> NeverEarly(history, |old(history)|, Id(ip), ok, world.recording(ip))
    {
      hide Run, PolicyOf, CameraId, Numbered, Interfered, Reported, StartedAs, Available, NeverEarly;
      if ip in workers {
        return false;
      }
      definitions := definitions[ip := camera];
      ghost var h := history;
      Interfere(world.server(0));
      if Superseded() {
        SaidNothing(h, history, Id(ip), false, world.recording(ip));
        return false;
      }
      Interfere(world.server(1));
      ok := StartCameraRuntime(ip);
      ghost var began := history;
      ReportStarted(ip, ok, world);
      SaidSince(h, began, history, Id(ip), ok, world.recording(ip));
    }

    // Writes the state of a camera that was started or was not, and again after its recording.
    method ReportStarted(ip: Ip, ok: bool, world: World)
      requires Valid() && ip in definitions
      modifies this`status, this`history
      ensures Valid() && old(history) <= history && old(status).revision <= status.revision
      ensures !Superseded() ==>
                && Id(ip) in status.cameras && status.cameras[Id(ip)].id == Id(ip)
                && StartedAs(status.cameras[Id(ip)], ip, ok, world) && Reported(status.cameras[Id(ip)], world.privacy)
      ensures NeverEarly(history, |old(history)|, Id(ip), ok, world.recording(ip))
    {
      hide Run, PolicyOf, CameraId, Numbered, Interfered, Reported, Quiet, NeverEarly, Obeys;
      ghost var from := |history|;
      NotYetSaid(history, Id(ip));
      var rec := world.recording(ip);
      var first := ReportOf(ip, if ok then FirstState(rec) else Degraded, world.privacy);
      RecordBehind(first, world.server(2), from, ok, rec);
      if rec.Requested? {
        var last := ReportOf(ip, if ok && rec.acknowledged then Applied else Degraded, world.privacy);
        RecordBehind(last, world.server(3), from, ok, rec);
      }
    }

    // One write of a camera's state, with the server writing just before.
    method RecordBehind(a: Application, write: Option<Status>, ghost from: nat, ghost ok: bool, ghost rec: Recording)
      requires Valid() && from <= |history| && Quiet(history, from, a.id)
      requires a.state == Applied ==> ok && (rec == Unrecorded || rec == Requested(true))
      modifies this`status, this`history
      ensures Valid() && old(history) <= history && old(status).revision <= status.revision
      ensures NeverEarly(history, from, a.id, ok, rec) && (a.state != Applied ==> Quiet(history, from, a.id))
      ensures !Superseded() ==> a.id in status.cameras && status.cameras[a.id] == a
    {
      hide Run, Numbered, Quiet, NeverEarly;
      ghost var h := history;
      Interfere(write);
      StillQuiet(h, from, a.id, history);
      h := history;
      var recorded := RecordCameraState(a);
      LastWord(h, from, a.id, history[|history| - 1], ok, rec);
    }

    method ReportOf(ip: Ip, state: AppState, privacy: Ip -> bool) returns (a: Application)
      requires ip in definitions
      ensures a.id == Id(ip) == (if ip in ids then ids[ip] else show(ip)) && a.state == state && Reported(a, privacy)
      ensures Obeys(registry, a.id, definitions[ip].recording, privacy(ip), a.policy)
    {
      hide PolicyOf, Obeys;
      PolicyObeys(registry, Id(ip), definitions[ip], privacy(ip));
      a := Application(Id(ip), state, PolicyOf(registry, Id(ip), definitions[ip], privacy(ip)));
    }

    /** The stop command. */
    method RemoveCamera(ip: Ip, world: World)
      requires Valid() && workers <= definitions.Keys
      modifies this`status, this`definitions, this`workers, this`events, this`eventWorkers, this`history
      ensures Valid() && old(history) <= history && workers <= definitions.Keys
      ensures definitions == old(definitions) - {ip} && workers == old(workers) - {ip}
      ensures status == var s := Interfered(old(status), world.server(0));
                        if s.revision > registry.revision then s
                        else s.(cameras := Reconciled(s.cameras, registry, ConfiguredIds()))
    {
      hide Run, PolicyOf, CameraId, MissingApplications, ActiveTargets;
      definitions := definitions - {ip};
      StopCamera(ip);
      Interfere(world.server(0));
      var reconciled := ReconcileMissingTargets();
    }

    /** The restart command. A change of the event settings alone replaces the event workers of
        a running camera, whatever the status says; any other change stops the camera and adds
        it again, behind the fence. */
    method RestartCamera(ip: Ip, camera: CameraDef, world: World) returns (ok: bool)
      requires Valid() && workers <= definitions.Keys
      modifies this`status, this`definitions, this`workers, this`events, this`eventWorkers, this`history
      ensures Valid() && old(history) <= history && workers <= definitions.Keys
      ensures !camera.routable ==>
              !ok && definitions == old(definitions) && workers == old(workers) && events == old(events)
      ensures camera.routable ==> definitions == old(definitions)[ip := camera]
      ensures forall j :: j != ip ==> (j in workers <==> j in old(workers))
      ensures camera.routable && ip in old(workers) && OnlyEventsDiffer(old(definitions)[ip], camera) ==>
                && ok && workers == old(workers) && status == old(status)
                && ip in events && events[ip] !in old(events).Values &&
                   history[|history| - 1].actor == RestartEvents(ip)
      ensures camera.routable && !(ip in old(workers) && OnlyEventsDiffer(old(definitions)[ip], camera)) ==>
                (ip in workers ==> Available(ip)) && (if ok then ip in workers <==> Available(ip) else Superseded())
    {
      hide Run, PolicyOf, CameraId;
      if !camera.routable {
        return false;
      }
      if ip in workers && EventOnlyUpdate(definitions[ip], camera) {
        events, eventWorkers := events[ip := eventWorkers], eventWorkers + 1;
        definitions := definitions[ip := camera];
        Log(RestartEvents(ip));
        return true;
      }
      StopCamera(ip);
      ok := AddCamera(ip, camera, world);
    }

    /** refresh_recording_runtime_status: the next entries in key order are visited, and those
        that were applied and whose recording has failed become degraded; only while the
        status is the loop's own. */
    method RefreshRecordingStatus(failed: string -> bool) returns (ghost visited: set<string>)
      requires Valid()
      modifies this`status, this`cursor, this`history
      ensures Valid() && old(history) <= history
      ensures status.revision == old(status).revision && status.active == old(status).active
      ensures RefreshedIn(old(status).cameras, status.cameras, visited, failed)
      ensures if old(status).revision == registry.revision && old(status).active == registry.active
              then Scan(old(status).cameras.Keys, old(cursor), visited, cursor) else visited == {} && cursor == None
    {
      hide Run, Numbered, RefreshedIn, Scan;
      visited := {};
      ScanStarts(status.cameras, failed, {});
      if status.revision != registry.revision || status.active != registry.active {
        cursor := None;
        return;
      }
      var cameras, next, seen := ScanEntries(status.cameras, cursor, failed);
      visited := seen;
      cursor := next;
      status := status.(cameras := cameras);
      Log(LoopWrite);
    }
  }

  // ---- The scan of the status entries ---------------------------------------------------------

  function Beyond(keys: set<string>, cursor: Option<string>): (r: set<string>) {
    set k | k in keys && (cursor.None? || Before(cursor.value, k))
  }

  predicate IsGreatest(n: string, names: set<string>) {
    n in names && forall m :: m in names ==> m == n || Before(m, n)
  }

  ghost predicate Ahead(a: set<string>, b: set<string>) { forall k, l :: k in a && l in b ==> Before(k, l) }

  /** One scan visits the keys beyond the cursor in order, at most 127 of them. The next one
      goes on behind the last, or from the beginning when there was nothing left. */
  ghost predicate Scan(keys: set<string>, cursor: Option<string>, visited: set<string>, next: Option<string>) {
    var rest := Beyond(keys, cursor) - visited;
    && visited <= Beyond(keys, cursor) && Ahead(visited, rest)
    && |visited| <= MAX_PROFILE_TARGETS && (rest != {} ==> |visited| == MAX_PROFILE_TARGETS)
    && if rest == {} then next == None else next.Some? && Beyond(keys, next) == rest
  }

  method ScanEntries(m: map<string, Application>, cursor: Option<string>, failed: string -> bool)
    returns (cameras: map<string, Application>, next: Option<string>, ghost visited: set<string>)
    ensures RefreshedIn(m, cameras, visited, failed) && Scan(m.Keys, cursor, visited, next)
  {
    hide Before, Scan, Scanning, RefreshedIn;
    cameras, visited := m, {};
    var todo := Beyond(m.Keys, cursor);
    ghost var start := todo;
    var last, n := None, 0;
    ScanStarts(m, failed, start);
    while todo != {} && n < MAX_PROFILE_TARGETS
      invariant todo <= m.Keys && n <= MAX_PROFILE_TARGETS
      invariant Scanning(start, todo, visited, last, n) && RefreshedIn(m, cameras, visited, failed)
      decreases todo
    {
      ghost var least := LeastExists(todo);
      var id :| id in todo && IsLeast(id, todo);
      Visit(start, todo, visited, last, n, id);
      RefreshNext(m, cameras, visited, failed, id);
      if cameras[id].state == Applied && cameras[id].policy.recording != Off && failed(cameras[id].id) {
        cameras := cameras[id := cameras[id].(state := Degraded)];
      }
      todo, visited, last, n := todo - {id}, visited + {id}, Some(id), n + 1;
    }
    ScanEnds(m.Keys, cursor, todo, visited, last, n);
    next := if last.None? || todo == {} then None else last;
  }

  // The entries visited are refreshed, the others are as they were.
  ghost predicate RefreshedIn(m: map<string, Application>, cameras: map<string, Application>, visited: set<string>,
                              failed: string -> bool) {
    && cameras.Keys == m.Keys
    && forall id :: id in m ==> cameras[id] == if id in visited then Refreshed(m[id], failed) else m[id]
  }

  // The loop after `n` entries, the last of them `last`.
  ghost predicate Scanning(start: set<string>, todo: set<string>, visited: set<string>, last: Option<string>, n: nat) {
    && todo <= start && visited == start - todo && |visited| == n <= MAX_PROFILE_TARGETS && Ahead(visited, todo)
    && if last == None then visited == {} else IsGreatest(last.value, visited)
  }

  lemma ScanStarts(m: map<string, Application>, failed: string -> bool, start: set<string>)
    ensures RefreshedIn(m, m, {}, failed) && Scanning(start, start, {}, None, 0)
  {
  }

  lemma RefreshNext(m: map<string, Application>, cameras: map<string, Application>, visited: set<string>,
                    failed: string -> bool, id: string)
    requires RefreshedIn(m, cameras, visited, failed) && id in m
    ensures id in cameras
    ensures var a := cameras[id];
            var fails := a.state == Applied && a.policy.recording != Off && failed(a.id);
            RefreshedIn(m, if fails then cameras[id := a.(state := Degraded)] else cameras, visited + {id}, failed)
  {
  }

  lemma Visit(start: set<string>, todo: set<string>, visited: set<string>, last: Option<string>, n: nat, id: string)
    requires Scanning(start, todo, visited, last, n) && n < MAX_PROFILE_TARGETS && IsLeast(id, todo)
    ensures Scanning(start, todo - {id}, visited + {id}, Some(id), n + 1)
  {
    hide Before;
  }

  lemma ScanEnds(keys: set<string>, cursor: Option<string>, todo: set<string>, visited: set<string>,
                 last: Option<string>, n: nat)
    requires Scanning(Beyond(keys, cursor), todo, visited, last, n) && (todo == {} || n == MAX_PROFILE_TARGETS)
    ensures Scan(keys, cursor, visited, if last.None? || todo == {} then None else last)
  {
    hide Before;
    assert Beyond(keys, cursor) - visited == todo;
    if todo != {} {
      forall k | k in keys ensures Before(last.value, k) <==> k in todo {
        if k in visited {
          NotBoth(k, last.value);
        } else if k !in todo {
          BehindCursor(cursor, k, last.value);
        }
      }
    }
  }

  lemma NotBoth(a: string, b: string)
    requires a == b || Before(a, b)
    ensures !Before(b, a)
  {
    BeforeIrreflexive(a);
    if Before(b, a) && a != b { BeforeTrans(a, b, a); }
  }

  lemma BehindCursor(cursor: Option<string>, k: string, last: string)
    requires cursor.Some? && !Before(cursor.value, k) && Before(cursor.value, last)
    ensures !Before(last, k)
  {
    if Before(last, k) { BeforeTrans(cursor.value, last, k); }
  }

  /** Scans that follow each other visit every key before they begin again. */
  lemma {:induction false} PassCoversAll(keys: set<string>, cursors: seq<Option<string>>, visits: seq<set<string>>)
    requires |cursors| == |visits| + 1 && visits != []
    requires forall i :: 0 <= i < |visits| ==> Scan(keys, cursors[i], visits[i], cursors[i + 1])
    requires cursors[0] == None && cursors[|visits|] == None && forall i :: 0 < i < |visits| ==> cursors[i].Some?
    ensures forall k :: k in keys ==> exists i :: 0 <= i < |visits| && k in visits[i]
  {
    hide Scan;
    forall k | k in keys ensures exists i :: 0 <= i < |visits| && k in visits[i] {
      if forall i :: 0 <= i < |visits| ==> k !in visits[i] { StillBeyond(keys, cursors, visits, k, |visits|); }
    }
  }

  // A key that was not visited is still ahead, so the last scan had something left.
  lemma {:induction false} StillBeyond(keys: set<string>, cursors: seq<Option<string>>, visits: seq<set<string>>,
                                       k: string, n: nat)
    requires |cursors| == |visits| + 1 && 0 < n <= |visits| && k in keys && cursors[0] == None
    requires forall i :: 0 <= i < |visits| ==> Scan(keys, cursors[i], visits[i], cursors[i + 1]) && k !in visits[i]
    ensures cursors[n].Some? && k in Beyond(keys, cursors[n])
  {
    hide Before;
    assert Scan(keys, cursors[n - 1], visits[n - 1], cursors[n - 1 + 1]);
    if n > 1 { StillBeyond(keys, cursors, visits, k, n - 1); }
    assert k in Beyond(keys, cursors[n - 1]) - visits[n - 1];
  }

  lemma CameraIdIs(ids: map<Ip, string>, show: Ip -> string, ip: Ip)
    ensures CameraId(ids, show, ip) == if ip in ids then ids[ip] else show(ip)
  {
  }

  lemma MissingDegraded(r: Registry, configured: set<string>)
    ensures var m := MissingApplications(r, configured);
            forall k :: k in m ==>
              k !in configured && m[k].state == Degraded && m[k].id == k && Obeys(r, k, EventBoost, false, m[k].policy)
  {
    hide Obeys;
    forall k | k in MissingApplications(r, configured)
      ensures Obeys(r, k, EventBoost, false, MissingApplications(r, configured)[k].policy)
    {
      PolicyObeys(r, k, CameraDef(EventBoost, true, 0, 0), false);
    }
  }

  lemma TargetIs(r: Registry, id: string)
    ensures id in ActiveTargets(r) <==> exists o :: Overrides(r, id, o)
  {
    if id in ActiveTargets(r) { assert Overrides(r, id, ActiveTargets(r)[id]); }
  }

  lemma MissingKeys(r: Registry, configured: set<string>)
    ensures MissingApplications(r, configured).Keys + configured == ActiveTargets(r).Keys + configured
  {
  }
}

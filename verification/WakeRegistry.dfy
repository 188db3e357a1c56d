/** The registry of sleeping battery cameras: entries expire only when someone looks. */
module WakeRegistry {
  import opened Base

  const MAX_REGISTRATIONS: nat := 256

  type Uid = string
  type Address = nat

  datatype Registration = Registration(address: Address, lastSeen: int)

  // What happened, for one configured camera each.
  datatype Event =
    | Heartbeat(uid: Uid, beat: Registration)
    | Rejected(uid: Uid)
    | Lookup(uid: Uid)
    | Woken(uid: Uid)
    | Connected(uid: Uid)

  // ---- Configured identities -------------------------------------------------------------------

  predicate Matches(allowed: Uid, reported: Uid) { allowed <= reported }

  // The longest allowed identity the reported one starts with.
  ghost predicate IsConfigured(allowed: set<Uid>, reported: Uid, r: Option<Uid>) {
    match r
    case None => forall c :: c in allowed ==> !Matches(c, reported)
    case Some(u) => u in allowed && Matches(u, reported) && forall c :: c in allowed && Matches(c, reported) ==>
      |c| < |u| || c == u
  }

  /** There is one such identity at most, so the order of the set does not matter. */
  lemma ConfiguredUnique(allowed: set<Uid>, reported: Uid, r: Option<Uid>, q: Option<Uid>)
    requires IsConfigured(allowed, reported, r) && IsConfigured(allowed, reported, q)
    ensures r == q
  {
  }

  lemma SameLengthPrefixes(a: Uid, b: Uid, whole: Uid)
    requires Matches(a, whole) && Matches(b, whole) && |a| == |b|
    ensures a == b
  {
    assert a == whole[..|a|] && b == whole[..|b|];
  }

  /** A camera that reports its own configured identity is found under it. */
  lemma ConfiguredExact(allowed: set<Uid>, uid: Uid)
    requires uid in allowed
    ensures IsConfigured(allowed, uid, Some(uid))
  {
    forall c | c in allowed && Matches(c, uid) ensures |c| < |uid| || c == uid {
      if |c| == |uid| { SameLengthPrefixes(c, uid, uid); }
    }
  }

  // ---- History ---------------------------------------------------------------------------------

  // The last accepted heartbeat of a camera. Lookups play no part.
  ghost function LastBeat(log: seq<Event>, u: Uid): (r: Option<Registration>) {
    if log == [] then None
    else
      var e := log[|log| - 1];
      if e.Heartbeat? && e.uid == u then Some(e.beat) else LastBeat(log[..|log| - 1], u)
  }

  predicate Fresh(b: Registration, now: int, staleAfter: nat) { now - b.lastSeen <= staleAfter }

  lemma LastBeatAppend(log: seq<Event>, e: Event, u: Uid)
    ensures LastBeat(log + [e], u) == if e.Heartbeat? && e.uid == u then Some(e.beat) else LastBeat(log, u)
  {
    assert (log + [e])[..|log|] == log;
  }

  // What the table holds for `u` is its last heartbeat, or nothing once that is stale.
  ghost predicate Agrees(table: map<Uid, Registration>, log: seq<Event>, u: Uid, clock: int, staleAfter: nat) {
    match LastBeat(log, u)
    case None => u !in table
    case Some(b) => b.lastSeen <= clock && (if u in table then table[u] == b else !Fresh(b, clock, staleAfter))
  }

  ghost predicate Faithful(table: map<Uid, Registration>, log: seq<Event>, clock: int, staleAfter: nat) {
    forall u :: Agrees(table, log, u, clock, staleAfter)
  }

  ghost predicate Bounded(table: map<Uid, Registration>, allowed: set<Uid>) {
    table.Keys <= allowed && |table| <= MAX_REGISTRATIONS
  }

  ghost predicate Requested(pending: map<Uid, int>, clock: int) { forall u :: u in pending ==> pending[u] <= clock }

  lemma RequestedLater(pending: map<Uid, int>, u: Uid, before: int, now: int)
    requires before <= now && Requested(pending, before)
    ensures Requested(pending, now) && Requested(pending - {u}, now)
  {
  }

  class WakeCore {
    const allowed: set<Uid>
    const heartbeat: nat
    const staleAfter: nat
    var registrations: map<Uid, Registration>
    var pendingWakes: map<Uid, int>
    ghost var log: seq<Event>
    ghost var clock: int

    ghost predicate Valid()
      reads this
    {
      && Bounded(registrations, allowed) && Requested(pendingWakes, clock)
      && Faithful(registrations, log, clock, staleAfter)
    }

    constructor (allowed: set<Uid>, heartbeat: nat, staleAfter: nat)
      ensures Valid() && log == [] && this.allowed == allowed && this.heartbeat == heartbeat &&
              this.staleAfter == staleAfter
    {
      this.allowed, this.heartbeat, this.staleAfter := allowed, heartbeat, staleAfter;
      registrations, pendingWakes, log := map[], map[], [];
    }

    /** max_by_key over the allowed identities that match, in whatever order they come. */
    method ConfiguredUid(reported: Uid) returns (r: Option<Uid>)
      ensures IsConfigured(allowed, reported, r)
    {
      r := None;
      var todo := allowed;
      while todo != {}
        invariant todo <= allowed && IsConfigured(allowed - todo, reported, r)
        decreases todo
      {
        var c :| c in todo;
        if Matches(c, reported) && (r == None || |c| >= |r.value|) {
          if r != None && |c| == |r.value| { SameLengthPrefixes(c, r.value, reported); }
          r := Some(c);
        }
        todo := todo - {c};
        assert allowed - todo == (allowed - (todo + {c})) + {c};
      }
      assert allowed - todo == allowed;
    }

    /** A heartbeat is recorded under its configured camera unless the registry is full of
        others. One that comes a heartbeat interval after a wake request ends that request. */
    method RegisterAt(reported: Uid, address: Address, now: int) returns (ok: bool, ghost u: Option<Uid>)
      requires Valid() && clock <= now
      modifies this`registrations, this`pendingWakes, this`log, this`clock
      ensures Valid() && clock == now && IsConfigured(allowed, reported, u)
      ensures ok <==> u.Some? && (u.value in old(registrations) || |old(registrations)| < 256)
      ensures u.Some? && |allowed| <= 256 ==> ok
      ensures ok ==> log == old(log) + [Heartbeat(u.value, Registration(address, now))]
      ensures !ok ==> log == old(log) + (if u.Some? then [Rejected(u.value)] else [])
      ensures !ok ==> pendingWakes == old(pendingWakes)
      ensures ok ==>
                var asleep := u.value in old(pendingWakes) && old(pendingWakes)[u.value] + heartbeat <= now;
                pendingWakes == if asleep then old(pendingWakes) - {u.value} else old(pendingWakes)
      ensures ok ==> registrations == old(registrations)[u.value := Registration(address, now)]
      ensures |registrations| <= 256
    {
      hide Faithful, IsConfigured, LastBeat, Current;
      var configured := ConfiguredUid(reported);
      u := configured;
      clock := now;
      AgreeLater(registrations, log, old(clock), now, staleAfter);
      if configured == None {
        assert log == old(log) + [];
        return false, u;
      }
      var uid := configured.value;
      ProperSubset(registrations.Keys, allowed, uid);
      if |registrations| >= MAX_REGISTRATIONS && uid !in registrations {
        log := log + [Rejected(uid)];
        AllAgree(registrations, registrations, old(log), Rejected(uid), now, staleAfter);
        return false, u;
      }
      if EndsWake(pendingWakes, uid, now) {
        pendingWakes := pendingWakes - {uid};
      }
      registrations := registrations[uid := Registration(address, now)];
      log := log + [Heartbeat(uid, Registration(address, now))];
      AllAgree(old(registrations), registrations, old(log), Heartbeat(uid, Registration(address, now)), now,
               staleAfter);
      ok := true;
    }

    predicate EndsWake(pending: map<Uid, int>, uid: Uid, now: int) { uid in pending && now - pending[uid] >= heartbeat }

    /** A lookup finds the last accepted heartbeat exactly when it is recent enough, whatever
        lookups came before. */
    method RegistrationAt(reported: Uid, now: int) returns (r: Option<Registration>, ghost u: Option<Uid>)
      requires Valid() && clock <= now
      modifies this`registrations, this`pendingWakes, this`log, this`clock
      ensures Valid() && clock == now && IsConfigured(allowed, reported, u)
      ensures u == None ==> r == None && log == old(log)
      ensures u.Some? ==> log == old(log) + [Lookup(u.value)] && r == Current(old(log), u.value, now)
      ensures r.Some? ==> now <= r.value.lastSeen + staleAfter
      ensures pendingWakes == (if u.Some? && u.value in old(registrations) && r == None then
                               old(pendingWakes) - {u.value} else old(pendingWakes))
    {
      hide Faithful, IsConfigured, LastBeat, Current, Bounded, Requested;
      var configured := ConfiguredUid(reported);
      u := configured;
      clock := now;
      AgreeLater(registrations, log, old(clock), now, staleAfter);
      if configured == None {
        RequestedLater(pendingWakes, "", old(clock), now);
        return None, u;
      }
      var uid := configured.value;
      LookupAgrees(registrations, log, uid, now);
      RequestedLater(pendingWakes, uid, old(clock), now);
      log := log + [Lookup(uid)];
      if uid !in registrations {
        return None, u;
      }
      if now - registrations[uid].lastSeen > staleAfter {
        registrations := registrations - {uid};
        pendingWakes := pendingWakes - {uid};
        return None, u;
      }
      r := Some(registrations[uid]);
    }

    // What a lookup does to the table, and what it finds.
    lemma LookupAgrees(table: map<Uid, Registration>, h: seq<Event>, u: Uid, now: int)
      requires Faithful(table, h, now, staleAfter) && Bounded(table, allowed)
      ensures u !in table || Fresh(table[u], now, staleAfter) ==>
                && Faithful(table, h + [Lookup(u)], now, staleAfter)
                && Current(h, u, now) == if u in table then Some(table[u]) else None
      ensures u in table && !Fresh(table[u], now, staleAfter) ==>
                && Faithful(table - {u}, h + [Lookup(u)], now, staleAfter) && Current(h, u, now) == None
                && Bounded(table - {u}, allowed)
    {
      hide Faithful;
      CurrentEntry(table, h, u, now);
      if u in table && !Fresh(table[u], now, staleAfter) {
        SubsetSize((table - {u}).Keys, table.Keys);
        AllAgree(table, table - {u}, h, Lookup(u), now, staleAfter);
      } else {
        AllAgree(table, table, h, Lookup(u), now, staleAfter);
      }
    }

    // The last heartbeat as long as it is fresh.
    ghost function Current(h: seq<Event>, u: Uid, now: int): (r: Option<Registration>) {
      match LastBeat(h, u)
      case None => None
      case Some(b) => if now <= b.lastSeen + staleAfter then Some(b) else None
    }

    lemma CurrentEntry(table: map<Uid, Registration>, h: seq<Event>, u: Uid, now: int)
      requires Faithful(table, h, now, staleAfter)
      ensures Current(h, u, now) == if u in table && Fresh(table[u], now, staleAfter) then Some(table[u]) else None
    {
      assert Agrees(table, h, u, now, staleAfter);
    }

    method NoteWakeRequested(reported: Uid, now: int) returns (ghost u: Option<Uid>)
      requires Valid() && clock <= now
      modifies this`pendingWakes, this`log, this`clock
      ensures Valid() && clock == now && IsConfigured(allowed, reported, u)
      ensures pendingWakes == (if u.Some? then old(pendingWakes)[u.value := now] else old(pendingWakes))
      ensures log == old(log) + (if u.Some? then [Woken(u.value)] else [])
    {
      hide Faithful, IsConfigured, LastBeat, Current;
      var configured := ConfiguredUid(reported);
      u := configured;
      clock := now;
      var e := Woken(if configured.Some? then configured.value else "");
      AgreeLater(registrations, log, old(clock), now, staleAfter);
      AllAgree(registrations, registrations, log, e, now, staleAfter);
      if configured.Some? {
        pendingWakes := pendingWakes[configured.value := now];
        log := log + [e];
      }
    }

    method NoteMediaConnected(reported: Uid) returns (ghost u: Option<Uid>)
      requires Valid()
      modifies this`pendingWakes, this`log
      ensures Valid() && IsConfigured(allowed, reported, u)
      ensures pendingWakes == (if u.Some? then old(pendingWakes) - {u.value} else old(pendingWakes))
      ensures log == old(log) + (if u.Some? then [Connected(u.value)] else [])
    {
      hide Faithful, IsConfigured, LastBeat, Current;
      var configured := ConfiguredUid(reported);
      u := configured;
      if configured.Some? {
        var e := Connected(configured.value);
        AllAgree(registrations, registrations, log, e, clock, staleAfter);
        pendingWakes := pendingWakes - {configured.value};
        log := log + [e];
      }
    }

    method WakePending(reported: Uid) returns (since: Option<int>)
      requires Valid()
      ensures forall u :: IsConfigured(allowed, reported, u) ==>
                since == (if u.Some? && u.value in pendingWakes then Some(pendingWakes[u.value]) else None)
    {
      var configured := ConfiguredUid(reported);
      forall u | IsConfigured(allowed, reported, u) ensures u == configured {
        ConfiguredUnique(allowed, reported, u, configured);
      }
      var waits := configured.Some? && configured.value in pendingWakes;
      since := if waits then Some(pendingWakes[configured.value]) else None;
    }
  }

  lemma ProperSubset(some: set<Uid>, all: set<Uid>, u: Uid)
    requires some <= all && u in all
    ensures u !in some ==> |some| < |all|
  {
    if u !in some { SubsetSize(some + {u}, all); }
  }

  lemma {:induction false} SubsetSize(some: set<Uid>, all: set<Uid>)
    requires some <= all
    ensures |some| <= |all|
  {
    if some != {} {
      var u :| u in some;
      SubsetSize(some - {u}, all - {u});
    }
  }

  // One more event, and the change of the table that goes with it.
  ghost predicate Follows(was: map<Uid, Registration>, table: map<Uid, Registration>, log: seq<Event>, e: Event,
                          now: int, staleAfter: nat) {
    if e.Heartbeat? then e.beat.lastSeen == now && table == was[e.uid := e.beat]
    else table == was || (e.uid in was && !Fresh(was[e.uid], now, staleAfter) && table == was - {e.uid})
  }

  lemma {:induction false} AllAgree(was: map<Uid, Registration>, table: map<Uid, Registration>, log: seq<Event>,
                                    e: Event, now: int, staleAfter: nat)
    requires Faithful(was, log, now, staleAfter)
    requires Follows(was, table, log, e, now, staleAfter)
    ensures Faithful(table, log + [e], now, staleAfter)
  {
    forall u ensures Agrees(table, log + [e], u, now, staleAfter) {
      assert Agrees(was, log, u, now, staleAfter);
      LastBeatAppend(log, e, u);
    }
  }

  lemma {:induction false} AgreeLater(table: map<Uid, Registration>, log: seq<Event>, before: int, now: int,
                                      staleAfter: nat)
    requires before <= now && Faithful(table, log, before, staleAfter)
    ensures Faithful(table, log, now, staleAfter)
  {
    forall u ensures Agrees(table, log, u, now, staleAfter) {
      assert Agrees(table, log, u, before, staleAfter);
    }
  }
}

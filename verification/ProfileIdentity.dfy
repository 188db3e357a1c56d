/** Persistent camera identities: the index from addresses to identities, and the one-time
    rewrite of profile targets that still name a camera by its address. */
module ProfileIdentity {
  import opened Base

  datatype Identity = Missing | Invalid | Known(id: string)

  // One camera table; `ip` is None when the table has no usable address.
  datatype Camera = Camera(slot: (string, string), ip: Option<Ip>, identity: Identity)

  predicate DistinctSlots(cs: seq<Camera>) {
    forall i, j :: 0 <= i < j < |cs| ==> cs[i].slot != cs[j].slot
  }

  datatype Index = Index(identities: map<Ip, string>, missing: seq<nat>, known: map<string, Ip>, ambiguous: set<Ip>)

  // ---- What the index should hold, without mention of order --------------------------------

  ghost predicate Owns(cs: seq<Camera>, c: Camera, ip: Ip) { c in cs && c.ip == Some(ip) }

  ghost predicate OnlyOwner(cs: seq<Camera>, c: Camera, ip: Ip) {
    Owns(cs, c, ip) && forall d :: Owns(cs, d, ip) ==> d == c
  }

  ghost predicate Ambiguous(cs: seq<Camera>, ip: Ip) {
    exists c, d :: Owns(cs, c, ip) && Owns(cs, d, ip) && c != d
  }

  ghost predicate WellFormed(cs: seq<Camera>) {
    && (forall c :: c in cs ==> c.ip.Some? && !c.identity.Invalid?)
    && (forall c, d :: c in cs && d in cs && c.identity.Known? && c.identity == d.identity ==> c == d)
  }

  ghost predicate IsIndex(cs: seq<Camera>, x: Index) {
    && (forall ip :: ip in x.identities ==> exists c :: OnlyOwner(cs, c, ip) && c.identity == Known(x.identities[ip]))
    && (forall c, ip :: OnlyOwner(cs, c, ip) && c.identity.Known? ==> ip in x.identities)
    && (forall ip :: ip in x.ambiguous <==> Ambiguous(cs, ip))
    && (forall id :: id in x.known <==> exists c :: c in cs && c.identity == Known(id))
    && (forall c :: c in cs && c.identity.Known? && c.identity.id in x.known ==> c.ip == Some(x.known[c.identity.id]))
    && MissingListed(cs, x.missing)
  }

  // The positions of the cameras without an identity, each once.
  ghost predicate MissingListed(cs: seq<Camera>, missing: seq<nat>) {
    && (forall n: nat :: n in missing <==> n < |cs| && cs[n].identity.Missing?)
    && |missing| == MissingCount(cs)
  }

  function MissingCount(cs: seq<Camera>): (n: nat) {
    if cs == [] then 0 else MissingCount(cs[..|cs| - 1]) + (if cs[|cs| - 1].identity.Missing? then 1 else 0)
  }

  lemma OneOwner(cs: seq<Camera>, c: Camera, d: Camera, ip: Ip)
    requires OnlyOwner(cs, c, ip) && OnlyOwner(cs, d, ip)
    ensures c == d
  {
  }

  lemma SameOwners(cs: seq<Camera>, ds: seq<Camera>)
    requires forall c :: c in cs <==> c in ds
    ensures forall c, ip :: OnlyOwner(cs, c, ip) <==> OnlyOwner(ds, c, ip)
    ensures forall ip :: Ambiguous(cs, ip) <==> Ambiguous(ds, ip)
  {
    forall c, ip ensures Owns(cs, c, ip) <==> Owns(ds, c, ip) { }
  }

  /** Table order does not matter: any two indexes of the same cameras agree. */
  lemma {:induction false} OrderIndependent(cs: seq<Camera>, ds: seq<Camera>, x: Index, y: Index)
    requires forall c :: c in cs <==> c in ds
    requires IsIndex(cs, x) && IsIndex(ds, y)
    ensures x.identities == y.identities && x.known == y.known && x.ambiguous == y.ambiguous
  {
    hide OnlyOwner, Ambiguous;
    SameOwners(cs, ds);
    forall ip | ip in x.identities ensures ip in y.identities && x.identities[ip] == y.identities[ip] {
      var c :| OnlyOwner(cs, c, ip) && c.identity == Known(x.identities[ip]);
      var d :| OnlyOwner(ds, d, ip) && d.identity == Known(y.identities[ip]);
      OneOwner(ds, c, d, ip);
    }
    forall ip | ip in y.identities ensures ip in x.identities {
      var c :| OnlyOwner(ds, c, ip) && c.identity == Known(y.identities[ip]);
      assert OnlyOwner(cs, c, ip);
    }
    forall ip ensures ip in x.ambiguous <==> ip in y.ambiguous { }
    forall id | id in x.known ensures id in y.known && x.known[id] == y.known[id] {
      var c :| c in cs && c.identity == Known(id);
    }
    forall id | id in y.known ensures id in x.known {
      var c :| c in ds && c.identity == Known(id);
    }
  }

  // ---- Building it -------------------------------------------------------------------------

  ghost predicate Seen(cs: seq<Camera>, seen: set<Ip>) {
    forall ip :: ip in seen <==> exists c :: Owns(cs, c, ip)
  }

  // One more camera, as the loop body treats it.
  ghost function AddCamera(x: Index, seen: set<Ip>, e: Camera, n: nat): (y: Index)
    requires e.ip.Some?
  {
    var ip := e.ip.value;
    var ambiguous := if ip in seen then x.ambiguous + {ip} else x.ambiguous;
    var identities := if ip in seen then x.identities - {ip} else x.identities;
    if !e.identity.Known? then Index(identities, x.missing + [n], x.known, ambiguous)
    else Index(if ip in ambiguous then identities else identities[ip := e.identity.id],
               x.missing, x.known[e.identity.id := ip], ambiguous)
  }

  lemma SnocOwns(cs: seq<Camera>, e: Camera, ip: Ip)
    ensures forall c :: Owns(cs + [e], c, ip) <==> Owns(cs, c, ip) || (c == e && e.ip == Some(ip))
  {
  }

  // Adding an owner of `ip` makes it ambiguous if it had one, and unique if it had none.
  lemma SnocOwners(cs: seq<Camera>, seen: set<Ip>, e: Camera, ip: Ip)
    requires Seen(cs, seen) && e !in cs && e.ip.Some?
    ensures Ambiguous(cs + [e], ip) <==> Ambiguous(cs, ip) || (e.ip == Some(ip) && ip in seen)
    ensures forall c :: OnlyOwner(cs + [e], c, ip) <==>
              if e.ip == Some(ip) then c == e && ip !in seen else OnlyOwner(cs, c, ip)
  {
    SnocOwns(cs, e, ip);
    var es := cs + [e];
    if e.ip == Some(ip) {
      assert Owns(es, e, ip);
      if ip in seen {
        var d :| Owns(cs, d, ip);
        assert Owns(es, d, ip) && d != e;
      }
    } else if Ambiguous(cs, ip) {
      var c, d :| Owns(cs, c, ip) && Owns(cs, d, ip) && c != d;
      assert Owns(es, c, ip) && Owns(es, d, ip);
    }
    if e.ip == Some(ip) && Ambiguous(cs, ip) {
      var c, d :| Owns(cs, c, ip) && Owns(cs, d, ip) && c != d;
      assert Owns(es, c, ip) && Owns(es, d, ip);
    }
  }

  lemma IdentitiesStep(cs: seq<Camera>, seen: set<Ip>, x: Index, e: Camera, n: nat)
    requires IsIndex(cs, x) && Seen(cs, seen) && e !in cs && e.ip.Some? && !e.identity.Invalid?
    ensures var y := AddCamera(x, seen, e, n);
            && (forall ip :: ip in y.ambiguous <==> Ambiguous(cs + [e], ip))
            && (forall ip :: ip in y.identities ==>
                  exists c :: OnlyOwner(cs + [e], c, ip) && c.identity == Known(y.identities[ip]))
            && (forall c, ip :: OnlyOwner(cs + [e], c, ip) && c.identity.Known? ==> ip in y.identities)
  {
    var y := AddCamera(x, seen, e, n);
    forall ip ensures ip in y.ambiguous <==> Ambiguous(cs + [e], ip) { SnocOwners(cs, seen, e, ip); }
    forall ip | ip in y.identities
      ensures exists c :: OnlyOwner(cs + [e], c, ip) && c.identity == Known(y.identities[ip])
    {
      SnocOwners(cs, seen, e, ip);
      if e.ip == Some(ip) {
        NotSeenNotAmbiguous(cs, seen, x, ip);
        assert OnlyOwner(cs + [e], e, ip);
      } else {
        var c :| OnlyOwner(cs, c, ip) && c.identity == Known(x.identities[ip]);
        assert OnlyOwner(cs + [e], c, ip);
      }
    }
    forall c, ip | OnlyOwner(cs + [e], c, ip) && c.identity.Known? ensures ip in y.identities {
      SnocOwners(cs, seen, e, ip);
      if e.ip == Some(ip) { NotSeenNotAmbiguous(cs, seen, x, ip); }
    }
  }

  lemma NotSeenNotAmbiguous(cs: seq<Camera>, seen: set<Ip>, x: Index, ip: Ip)
    requires IsIndex(cs, x) && Seen(cs, seen)
    ensures ip !in seen ==> ip !in x.ambiguous && ip !in x.identities
  {
    if ip in x.identities { var c :| OnlyOwner(cs, c, ip) && c.identity == Known(x.identities[ip]); }
  }

  lemma {:induction false} IndexStep(cs: seq<Camera>, seen: set<Ip>, x: Index, e: Camera)
    requires IsIndex(cs, x) && Seen(cs, seen) && WellFormed(cs) && e !in cs
    requires e.ip.Some? && !e.identity.Invalid? && (e.identity.Known? ==> e.identity.id !in x.known)
    ensures IsIndex(cs + [e], AddCamera(x, seen, e, |cs|)) && WellFormed(cs + [e]) &&
            Seen(cs + [e], seen + {e.ip.value})
  {
    hide Owns, OnlyOwner, Ambiguous, MissingListed;
    IdentitiesStep(cs, seen, x, e, |cs|);
    KnownStep(cs, seen, x, e);
    SeenStep(cs, seen, e);
    MissingStep(cs, x.missing, e);
  }

  lemma MissingStep(cs: seq<Camera>, missing: seq<nat>, e: Camera)
    requires MissingListed(cs, missing)
    ensures MissingListed(cs + [e], if e.identity.Missing? then missing + [|cs|] else missing)
  {
    var es, ms := cs + [e], if e.identity.Missing? then missing + [|cs|] else missing;
    assert es[..|es| - 1] == cs;
    forall n: nat ensures n in ms <==> n < |es| && es[n].identity.Missing? {
      if n < |cs| { assert es[n] == cs[n]; }
    }
  }

  lemma SeenStep(cs: seq<Camera>, seen: set<Ip>, e: Camera)
    requires Seen(cs, seen) && e.ip.Some?
    ensures Seen(cs + [e], seen + {e.ip.value})
  {
    forall ip: Ip ensures ip in seen + {e.ip.value} <==> exists c :: Owns(cs + [e], c, ip) {
      SnocOwns(cs, e, ip);
      if c :| Owns(cs, c, ip) { assert Owns(cs + [e], c, ip); }
      if e.ip == Some(ip) { assert Owns(cs + [e], e, ip); }
    }
  }

  lemma KnownStep(cs: seq<Camera>, seen: set<Ip>, x: Index, e: Camera)
    requires IsIndex(cs, x) && WellFormed(cs) && e.ip.Some? && !e.identity.Invalid?
    requires e.identity.Known? ==> e.identity.id !in x.known
    ensures var es, y := cs + [e], AddCamera(x, seen, e, |cs|);
            && WellFormed(es)
            && (forall id :: id in y.known <==> exists c :: c in es && c.identity == Known(id))
            && (forall c :: c in es && c.identity.Known? && c.identity.id in y.known ==>
                c.ip == Some(y.known[c.identity.id]))
  {
    hide Owns, OnlyOwner, Ambiguous, MissingListed;
    var es, y := cs + [e], AddCamera(x, seen, e, |cs|);
    forall c ensures c in es <==> c in cs || c == e { }
    forall id ensures id in y.known <==> exists c :: c in es && c.identity == Known(id) {
      if c :| c in cs && c.identity == Known(id) { assert c in es; }
      if e.identity == Known(id) { assert e in es; }
    }
  }

  /** collect_camera_profile_identities: None stands for any of its errors. */
  method CollectIndex(cs: seq<Camera>) returns (r: Option<Index>)
    requires DistinctSlots(cs)
    ensures r.Some? <==> WellFormed(cs)
    ensures r.Some? ==> IsIndex(cs, r.value)
  {
    hide IsIndex, WellFormed, Seen;
    var identities: map<Ip, string> := map[];
    var ambiguous: set<Ip> := {};
    var seen: set<Ip> := {};
    var missing: seq<nat> := [];
    var known: map<string, Ip> := map[];
    EmptyIndex();
    assert cs[..0] == [];
    var n := 0;
    while n < |cs|
      invariant 0 <= n <= |cs|
      invariant IsIndex(cs[..n], Index(identities, missing, known, ambiguous))
      invariant WellFormed(cs[..n]) && Seen(cs[..n], seen)
    {
      var e := cs[n];
      assert cs[..n + 1] == cs[..n] + [e];
      ghost var x, was := Index(identities, missing, known, ambiguous), seen;
      if e.ip.None? {
        BadCamera(cs, n);
        return None;
      }
      var ip := e.ip.value;
      if ip in seen {
        ambiguous := ambiguous + {ip};
        identities := identities - {ip};
      }
      seen := seen + {ip};
      if e.identity.Invalid? {
        BadCamera(cs, n);
        return None;
      }
      if e.identity.Missing? {
        missing := missing + [n];
      } else {
        if e.identity.id in known {
          DuplicateIdentity(cs, n, x);
          return None;
        }
        known := known[e.identity.id := ip];
        if ip !in ambiguous {
          identities := identities[ip := e.identity.id];
        }
      }
      assert e !in cs[..n];
      IndexStep(cs[..n], was, x, e);
      n := n + 1;
    }
    assert cs[..n] == cs;
    return Some(Index(identities, missing, known, ambiguous));
  }

  lemma EmptyIndex()
    ensures IsIndex([], Index(map[], [], map[], {})) && WellFormed([]) && Seen([], {})
  {
  }

  lemma BadCamera(cs: seq<Camera>, n: nat)
    requires n < |cs| && (cs[n].ip.None? || cs[n].identity.Invalid?)
    ensures !WellFormed(cs)
  {
    assert cs[n] in cs;
  }

  lemma DuplicateIdentity(cs: seq<Camera>, n: nat, x: Index)
    requires n < |cs| && DistinctSlots(cs) && IsIndex(cs[..n], x)
    requires cs[n].identity.Known? && cs[n].identity.id in x.known
    ensures !WellFormed(cs)
  {
    var c :| c in cs[..n] && c.identity == Known(cs[n].identity.id);
    var i :| 0 <= i < n && cs[..n][i] == c;
    assert cs[i].slot != cs[n].slot && c in cs && cs[n] in cs;
  }
}

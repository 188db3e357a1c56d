/** Which client a request comes from: the walk over the proxy chain of `X-Forwarded-For`. */
module ForwardingWalk {
  import opened Base

  const MAX_FORWARDING_HOPS: nat := 16

  datatype Address = V4(bits: nat) | V6(bits: nat)

  // An IPv4-mapped address, section 2.5.5.2 of RFC 4291, is taken as the IPv4 address in it.
  function Normalize(ip: Address): (r: Address) {
    if ip.V6? && ip.bits / 0x1_0000_0000 == 0xFFFF then V4(ip.bits % 0x1_0000_0000) else ip
  }

  function Mapped(v4: nat): (r: Address) { V6(0xFFFF_0000_0000 + v4) }

  /** Normalising undoes mapping, changes only mapped addresses, and does so once. */
  lemma NormalizeMapped(ip: Address, v4: nat)
    requires v4 < 0x1_0000_0000
    ensures Normalize(Mapped(v4)) == V4(v4) && Normalize(Normalize(ip)) == Normalize(ip)
    ensures Normalize(ip) != ip <==> exists low: nat :: low < 0x1_0000_0000 && ip == Mapped(low)
  {
    if Normalize(ip) != ip { assert ip == Mapped(ip.bits % 0x1_0000_0000); }
  }

  // A network holds the addresses of its family that share its leading bits.
  datatype Network = Network(base: Address, prefix: nat)

  function Pow2(n: nat): (r: nat)
    ensures r > 0
  {
    if n == 0 then 1 else 2 * Pow2(n - 1)
  }

  predicate Holds(n: Network, ip: Address) {
    match (n.base, ip)
    case (V4(b), V4(x)) => n.prefix <= 32 && b / Pow2(32 - n.prefix) == x / Pow2(32 - n.prefix)
    case (V6(b), V6(x)) => n.prefix <= 128 && b / Pow2(128 - n.prefix) == x / Pow2(128 - n.prefix)
    case _ => false
  }

  predicate Contains(ns: seq<Network>, ip: Address) { exists i :: 0 <= i < |ns| && Holds(ns[i], ip) }

  // The addresses of a block of `size` that holds `b`.
  lemma SameBlock(b: nat, x: nat, size: nat)
    requires size > 0
    ensures b / size == x / size <==> b - b % size <= x < b - b % size + size
  {
    var q, r := b / size, x / size;
    assert b - b % size == q * size && x == r * size + x % size;
    if q < r { assert (q + 1) * size <= r * size; }
    if r < q { assert (r + 1) * size <= q * size; }
  }

  /** A network is a range of addresses of its own family, as long as its prefix leaves bits. */
  lemma HoldsRange(n: Network, ip: Address)
    requires n.prefix <= if n.base.V4? then 32 else 128
    ensures var size := Pow2((if n.base.V4? then 32 else 128) - n.prefix);
            var low := n.base.bits - n.base.bits % size;
            Holds(n, ip) <==> ip.V4? == n.base.V4? && low <= ip.bits < low + size
  {
    SameBlock(n.base.bits, ip.bits, Pow2((if n.base.V4? then 32 else 128) - n.prefix));
  }

  /** A prefix of full length leaves one address, and each bit less doubles that. */
  lemma NetworkSizes(n: nat)
    ensures Pow2(0) == 1 && Pow2(n + 1) == 2 * Pow2(n)
  {
  }

  /** Any of the networks will do. */
  lemma ContainsAny(ns: seq<Network>, ip: Address)
    ensures Contains(ns, ip) <==> exists n :: n in ns && Holds(n, ip)
  {
    hide Holds;
    if Contains(ns, ip) {
      var i :| 0 <= i < |ns| && Holds(ns[i], ip);
      assert ns[i] in ns;
    }
  }

  datatype Policy = Policy(local: seq<Network>, trusted: seq<Network>)

  datatype Reason =
    | DirectLocal | DirectRemote | TrustedProxyLocal | TrustedProxyRemote
    | UntrustedForwarding | MissingForwardedClient | MalformedForwardedClient

  datatype Classification = Classification(peer: Address, effective: Address, local: bool, reason: Reason)

  // ---- Header names ----------------------------------------------------------------------------

  predicate SameName(a: string, b: string) {
    |a| == |b| && forall i :: 0 <= i < |a| ==> AsciiLower(a[i]) == AsciiLower(b[i])
  }

  predicate IsClientHeader(name: string) { SameName(name, "X-Forwarded-For") }

  predicate IsForwardingHeader(name: string) {
    || SameName(name, "Forwarded") || SameName(name, "X-Forwarded-Host")
    || SameName(name, "X-Forwarded-Proto") || SameName(name, "X-Real-IP")
  }

  /** Which header names count, in whatever case. */
  lemma HeaderNames(name: string)
    ensures IsClientHeader(name) <==> SameLetters(name, "X-Forwarded-For")
    ensures IsForwardingHeader(name) <==>
            || SameLetters(name, "Forwarded") || SameLetters(name, "X-Forwarded-Host")
            || SameLetters(name, "X-Forwarded-Proto") || SameLetters(name, "X-Real-IP")
  {
    hide SameName, SameLetters;
    SameNameIs(name, "X-Forwarded-For");
    SameNameIs(name, "Forwarded");
    SameNameIs(name, "X-Forwarded-Host");
    SameNameIs(name, "X-Forwarded-Proto");
    SameNameIs(name, "X-Real-IP");
  }

  lemma SameNameIs(a: string, b: string)
    ensures SameName(a, b) <==> SameLetters(a, b)
  {
  }

  datatype Header = Header(name: string, value: string)

  // ---- The chain -------------------------------------------------------------------------------

  function Pieces(s: string): (r: seq<string>)
    ensures |r| >= 1
  {
    if s == "" then [""]
    else if s[0] == ',' then [""] + Pieces(s[1..])
    else
      var rest := Pieces(s[1..]);
      [[s[0]] + rest[0]] + rest[1..]
  }

  function ParseAll(pieces: seq<string>, hop: string -> Option<Address>): (r: Option<seq<Address>>) {
    if pieces == [] then Some([])
    else
      match (hop(pieces[0]), ParseAll(pieces[1..], hop))
      case (Some(ip), Some(rest)) => Some([Normalize(ip)] + rest)
      case _ => None
  }

  // parse_forwarded_chain; `hop` trims and parses one address.
  function Chain(value: string, hop: string -> Option<Address>): (r: Option<seq<Address>>) {
    if |Pieces(value)| > MAX_FORWARDING_HOPS then None else ParseAll(Pieces(value), hop)
  }

  ghost function Join(pieces: seq<string>): (r: string)
    requires pieces != []
  {
    if |pieces| == 1 then pieces[0] else pieces[0] + "," + Join(pieces[1..])
  }

  /** Splitting loses nothing: the pieces hold no comma, and joined they are the text. */
  lemma {:induction false} PiecesJoin(s: string)
    ensures Join(Pieces(s)) == s && forall k :: 0 <= k < |Pieces(s)| ==> ',' !in Pieces(s)[k]
  {
    if s != "" {
      PiecesJoin(s[1..]);
      var rest := Pieces(s[1..]);
      assert s == [s[0]] + s[1..];
      if s[0] == ',' {
        assert Pieces(s)[1..] == rest;
      } else if |rest| > 1 {
        assert Pieces(s)[1..] == rest[1..];
        assert [s[0]] + rest[0] + "," + Join(rest[1..]) == [s[0]] + (rest[0] + "," + Join(rest[1..]));
      }
    }
  }

  /** A chain is accepted exactly when it has at most 16 hops and each one parses, and its
      hops are the parsed addresses, normalised, in order. */
  lemma {:induction false} ChainHops(value: string, hop: string -> Option<Address>)
    ensures Chain(value, hop).Some? <==>
            |Pieces(value)| <= 16 && forall k :: 0 <= k < |Pieces(value)| ==>
              hop(Pieces(value)[k]).Some?
    ensures Chain(value, hop).Some? ==> |Chain(value, hop).value| == |Pieces(value)|
    ensures Chain(value, hop).Some? ==>
              forall k :: 0 <= k < |Pieces(value)| ==>
                Chain(value, hop).value[k] == Normalize(hop(Pieces(value)[k]).value)
  {
    AllHops(Pieces(value), hop);
  }

  lemma {:induction false} AllHops(ps: seq<string>, hop: string -> Option<Address>)
    ensures ParseAll(ps, hop).Some? <==> forall k :: 0 <= k < |ps| ==> hop(ps[k]).Some?
    ensures ParseAll(ps, hop).Some? ==> |ParseAll(ps, hop).value| == |ps|
    ensures ParseAll(ps, hop).Some? ==> forall k :: 0 <= k < |ps| ==>
            ParseAll(ps, hop).value[k] == Normalize(hop(ps[k]).value)
  {
    if ps != [] { AllHops(ps[1..], hop); }
  }

  lemma PiecesStep(c: char, s: string)
    ensures Pieces("") == [""]
    ensures Pieces([c] + s) == if c == ',' then [""] + Pieces(s) else [[c] + Pieces(s)[0]] + Pieces(s)[1..]
  {
    assert ([c] + s)[1..] == s;
  }

  lemma {:induction false} PiecesConcat(pre: string, s: string)
    ensures Pieces(pre + "," + s) == Pieces(pre) + Pieces(s)
  {
    hide Pieces;
    if pre == "" {
      PiecesStep(',', s);
      assert pre + "," + s == [','] + s;
    } else {
      var c, rest := pre[0], pre[1..];
      PiecesConcat(rest, s);
      PiecesStep(c, rest);
      PiecesStep(c, rest + "," + s);
      assert pre == [c] + rest && pre + "," + s == [c] + (rest + "," + s);
    }
  }

  lemma {:induction false} ParseAllConcat(a: seq<string>, b: seq<string>, hop: string -> Option<Address>)
    ensures ParseAll(a + b, hop).Some? <==> ParseAll(a, hop).Some? && ParseAll(b, hop).Some?
    ensures ParseAll(a + b, hop).Some? ==> ParseAll(a + b, hop).value == ParseAll(a, hop).value + ParseAll(b, hop).value
  {
    if a == [] {
      assert a + b == b;
    } else {
      ParseAllConcat(a[1..], b, hop);
      assert (a + b)[1..] == a[1..] + b;
    }
  }

  // ---- What a classification means -------------------------------------------------------------

  // Hop `k` is the client: every hop after it is a trusted proxy, and it is not one itself
  // unless there is no hop before it.
  ghost predicate ClientHop(trusted: seq<Network>, chain: seq<Address>, k: nat) {
    && k < |chain|
    && (forall m :: k < m < |chain| ==> Contains(trusted, chain[m]))
    && (k == 0 || !Contains(trusted, chain[k]))
  }

  ghost predicate Forwarded(hs: seq<Header>) {
    exists i :: 0 <= i < |hs| && (IsClientHeader(hs[i].name) || IsForwardingHeader(hs[i].name))
  }

  ghost predicate HasClient(hs: seq<Header>) { exists i :: 0 <= i < |hs| && IsClientHeader(hs[i].name) }

  // Header `i` is the only one that says anything about forwarding.
  ghost predicate SoleClient(hs: seq<Header>, i: nat) {
    && i < |hs| && IsClientHeader(hs[i].name)
    && forall j :: 0 <= j < |hs| && j != i ==> !IsClientHeader(hs[j].name) && !IsForwardingHeader(hs[j].name)
  }

  ghost predicate WellFormed(hs: seq<Header>, hop: string -> Option<Address>) {
    exists i: nat :: SoleClient(hs, i) && Chain(hs[i].value, hop).Some?
  }

  ghost predicate FromChain(p: Policy, hs: seq<Header>, hop: string -> Option<Address>, effective: Address) {
    exists i: nat, k: nat :: SoleClient(hs, i) && Chain(hs[i].value, hop).Some? &&
                   ClientHop(p.trusted, Chain(hs[i].value, hop).value, k) &&
                     effective == Chain(hs[i].value, hop).value[k]
  }

  ghost predicate Classified(p: Policy, peer: Address, hs: seq<Header>, hop: string -> Option<Address>,
                             r: Classification) {
    var trusted := Contains(p.trusted, Normalize(peer));
    && r.peer == Normalize(peer)
    && (r.reason.TrustedProxyLocal? || r.reason.TrustedProxyRemote? || r.effective == r.peer)
    && (r.local <==> r.reason.DirectLocal? || r.reason.TrustedProxyLocal?)
    && match r.reason {
      case UntrustedForwarding => !trusted && Forwarded(hs)
      case MissingForwardedClient => trusted && !HasClient(hs)
      case MalformedForwardedClient => trusted && HasClient(hs) && !WellFormed(hs, hop)
      case TrustedProxyLocal => trusted && FromChain(p, hs, hop, r.effective) && Contains(p.local, r.effective)
      case TrustedProxyRemote => trusted && FromChain(p, hs, hop, r.effective) && !Contains(p.local, r.effective)
      case DirectLocal => !trusted && !Forwarded(hs) && Contains(p.local, r.peer)
      case DirectRemote => !trusted && !Forwarded(hs) && !Contains(p.local, r.peer)
    }
  }

  // ---- The code --------------------------------------------------------------------------------

  /** The right-to-left walk stops at the client. */
  method Walk(p: Policy, peer: Address, chain: seq<Address>) returns (effective: Address)
    requires Contains(p.trusted, peer) && chain != []
    ensures exists k: nat :: k < |chain| && ClientHop(p.trusted, chain, k) && effective == chain[k]
  {
    effective := peer;
    var n := |chain|;
    while n > 0
      invariant 0 <= n <= |chain| && effective == (if n == |chain| then peer else chain[n])
      invariant forall m :: n < m < |chain| ==> Contains(p.trusted, chain[m])
    {
      if !Contains(p.trusted, effective) {
        break;
      }
      n := n - 1;
      effective := chain[n];
    }
    assert ClientHop(p.trusted, chain, n);
  }

  // What the scan over the headers has found.
  ghost predicate Scanned(hs: seq<Header>, n: nat, client: Option<string>, count: nat, other: bool, at: nat) {
    && n <= |hs| && (count > 0 <==> client.Some?)
    && (count > 0 ==> at < n && IsClientHeader(hs[at].name) && client.value == hs[at].value)
    && (count <= 1 ==> forall i :: 0 <= i < n && i != at ==> !IsClientHeader(hs[i].name))
    && (count == 0 ==> forall i :: 0 <= i < n ==> !IsClientHeader(hs[i].name))
    && (count > 1 ==> exists i :: 0 <= i < n && i != at && IsClientHeader(hs[i].name))
    && (other <==> exists i :: 0 <= i < n && IsForwardingHeader(hs[i].name))
  }

  method Scan(hs: seq<Header>) returns (client: Option<string>, count: nat, other: bool)
    ensures exists at: nat :: Scanned(hs, |hs|, client, count, other, at)
  {
    client, count, other := None, 0, false;
    ghost var at := 0;
    for n := 0 to |hs|
      invariant Scanned(hs, n, client, count, other, at)
    {
      if IsClientHeader(hs[n].name) {
        count := count + 1;
        client := Some(hs[n].value);
        at := n;
        NamesDiffer(hs[n].name);
      } else if IsForwardingHeader(hs[n].name) {
        other := true;
      }
    }
  }

  // The client header is none of the others.
  lemma NamesDiffer(name: string)
    requires IsClientHeader(name)
    ensures !IsForwardingHeader(name)
  {
    assert |name| == 15 && AsciiLower(name[12]) == 'f';
  }

  // The scan decides how the headers are.
  lemma {:induction false} ScanMeans(hs: seq<Header>, client: Option<string>, count: nat, other: bool, at: nat,
                                     hop: string -> Option<Address>)
    requires Scanned(hs, |hs|, client, count, other, at)
    ensures HasClient(hs) <==> count > 0
    ensures Forwarded(hs) <==> count > 0 || other
    ensures count == 1 && !other <==> exists i: nat :: SoleClient(hs, i)
    ensures count == 1 && !other ==> SoleClient(hs, at)
    ensures WellFormed(hs, hop) <==> count == 1 && !other && Chain(client.value, hop).Some?
  {
    forall i: nat | SoleClient(hs, i) ensures count == 1 && !other && i == at {
      NamesDiffer(hs[i].name);
    }
    if count == 1 && !other { assert SoleClient(hs, at); }
  }

  /** NetworkAccessPolicy::classify. */
  method Classify(p: Policy, peerAddress: Address, hs: seq<Header>, hop: string -> Option<Address>)
    returns (r: Classification)
    ensures Classified(p, peerAddress, hs, hop, r)
  {
    hide Scanned, Contains, ClientHop, SoleClient, Chain, Forwarded, HasClient;
    var peer := Normalize(peerAddress);
    var client, count, other := Scan(hs);
    ghost var at: nat :| Scanned(hs, |hs|, client, count, other, at);
    ScanMeans(hs, client, count, other, at, hop);
    var trusted := Contains(p.trusted, peer);
    if (count != 0 || other) && !trusted {
      return Classification(peer, peer, false, UntrustedForwarding);
    }
    if trusted {
      if count == 0 {
        return Classification(peer, peer, false, MissingForwardedClient);
      }
      if count != 1 || other {
        return Classification(peer, peer, false, MalformedForwardedClient);
      }
      var parsed := ClientChain(hs, client, count, other, at, hop);
      if parsed.None? {
        return Classification(peer, peer, false, MalformedForwardedClient);
      }
      var effective := Walk(p, peer, parsed.value);
      assert FromChain(p, hs, hop, effective);
      var near := Contains(p.local, effective);
      return Classification(peer, effective, near, if near then TrustedProxyLocal else TrustedProxyRemote);
    }
    var near := Contains(p.local, peer);
    r := Classification(peer, peer, near, if near then DirectLocal else DirectRemote);
  }

  method ClientChain(hs: seq<Header>, client: Option<string>, count: nat, other: bool, ghost at: nat,
                     hop: string -> Option<Address>)
    returns (parsed: Option<seq<Address>>)
    requires Scanned(hs, |hs|, client, count, other, at) && count == 1
    ensures at < |hs| && parsed == Chain(client.value, hop) && client == Some(hs[at].value)
    ensures parsed.Some? ==> parsed.value != []
  {
    parsed := Chain(client.value, hop);
    if parsed.Some? { AllHops(Pieces(client.value), hop); }
  }

  // ---- Consequences ----------------------------------------------------------------------------

  lemma ClientHopUnique(trusted: seq<Network>, chain: seq<Address>, j: nat, k: nat)
    requires ClientHop(trusted, chain, j) && ClientHop(trusted, chain, k)
    ensures j == k
  {
  }

  /** The meaning of a request decides its classification. */
  lemma {:induction false} ClassifiedUnique(p: Policy, peer: Address, hs: seq<Header>, hop: string -> Option<Address>,
                                            r: Classification, q: Classification)
    requires Classified(p, peer, hs, hop, r) && Classified(p, peer, hs, hop, q)
    ensures r == q
  {
  }

  /** Hops put before a chain that has an untrusted hop never change the client: either they
      leave the classification as it was, or the request is refused as malformed and counts
      as remote. The second happens exactly when the new hops do not parse or are too many. */
  lemma {:induction false} PrependKeepsClient(p: Policy, peer: Address, hs: seq<Header>, at: nat, pre: string,
                                              hop: string -> Option<Address>,
                                              r: Classification, q: Classification)
    requires SoleClient(hs, at) && Chain(hs[at].value, hop).Some?
    requires var chain := Chain(hs[at].value, hop).value;
             exists m :: 0 <= m < |chain| && !Contains(p.trusted, chain[m])
    requires Classified(p, peer, hs, hop, r)
    requires Classified(p, peer, hs[at := hs[at].(value := pre + "," + hs[at].value)], hop, q)
    ensures q == r || (q.reason.MalformedForwardedClient? && !q.local && q.effective == q.peer)
    ensures Contains(p.trusted, Normalize(peer)) ==> (q == r <==> Fits(pre, hs[at].value, hop))
  {
    hide Classified, Contains, ClientHop, Chain, Fits, IsClientHeader, IsForwardingHeader;
    var value := hs[at].value;
    var long := hs[at := hs[at].(value := pre + "," + value)];
    SoleMeans(p, peer, hs, at, hop, r);
    SoleMeans(p, peer, long, at, hop, q);
    ChainConcat(pre, value, hop);
    if Fits(pre, value, hop) {
      var front, chain := ParseAll(Pieces(pre), hop).value, Chain(value, hop).value;
      if Contains(p.trusted, Normalize(peer)) {
        var k: nat :| k < |chain| && ClientHop(p.trusted, chain, k) && r.effective == chain[k];
        LongerChain(p.trusted, front, chain, k);
        var j: nat :| j < |front + chain| && ClientHop(p.trusted, front + chain, j) &&
            q.effective == (front + chain)[j];
        ClientHopUnique(p.trusted, front + chain, j, |front| + k);
      }
    }
  }

  ghost predicate Fits(pre: string, value: string, hop: string -> Option<Address>) {
    |Pieces(pre)| + |Pieces(value)| <= 16 && ParseAll(Pieces(pre), hop).Some?
  }

  lemma ChainConcat(pre: string, value: string, hop: string -> Option<Address>)
    requires Chain(value, hop).Some?
    ensures Chain(pre + "," + value, hop).Some? <==> Fits(pre, value, hop)
    ensures Fits(pre, value, hop) ==> ParseAll(Pieces(pre), hop).Some?
    ensures Fits(pre, value, hop) ==>
            Chain(pre + "," + value, hop).value == ParseAll(Pieces(pre), hop).value + Chain(value, hop).value
  {
    PiecesConcat(pre, value);
    ParseAllConcat(Pieces(pre), Pieces(value), hop);
  }

  lemma LongerChain(trusted: seq<Network>, front: seq<Address>, chain: seq<Address>, k: nat)
    requires ClientHop(trusted, chain, k) && exists m :: 0 <= m < |chain| && !Contains(trusted, chain[m])
    ensures ClientHop(trusted, front + chain, |front| + k) && (front + chain)[|front| + k] == chain[k]
  {
    hide Contains;
    var m :| 0 <= m < |chain| && !Contains(trusted, chain[m]);
    assert m <= k;
    var all := front + chain;
    forall i | |front| + k < i < |all| ensures Contains(trusted, all[i]) {
      assert all[i] == chain[i - |front|];
    }
  }

  // A request whose only forwarding header is `at`.
  lemma {:induction false} SoleMeans(p: Policy, peer: Address, hs: seq<Header>, at: nat, hop: string -> Option<Address>,
                                     r: Classification)
    requires SoleClient(hs, at) && Classified(p, peer, hs, hop, r)
    ensures r.peer == Normalize(peer)
    ensures !Contains(p.trusted, r.peer) ==> r == Classification(r.peer, r.peer, false, UntrustedForwarding)
    ensures Contains(p.trusted, r.peer) && Chain(hs[at].value, hop).None? ==>
            r == Classification(r.peer, r.peer, false, MalformedForwardedClient)
    ensures Contains(p.trusted, r.peer) && Chain(hs[at].value, hop).Some? ==>
            ChainDecides(p, Chain(hs[at].value, hop).value, r)
  {
    hide Contains, Chain, IsClientHeader, IsForwardingHeader;
    assert forall i: nat :: SoleClient(hs, i) ==> i == at;
    assert HasClient(hs) && Forwarded(hs);
    if Chain(hs[at].value, hop).Some? { assert WellFormed(hs, hop); }
  }

  ghost predicate ChainDecides(p: Policy, chain: seq<Address>, r: Classification) {
    && (exists k: nat :: k < |chain| && ClientHop(p.trusted, chain, k) && r.effective == chain[k])
    && r.local == Contains(p.local, r.effective)
    && r.reason == (if r.local then TrustedProxyLocal else TrustedProxyRemote)
  }
}

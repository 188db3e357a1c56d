/** The camera event worker: transitions wait in order until a bounded channel takes them. */
module DeliveryQueue {
  import opened Base

  const MAX_PENDING: nat := 128
  const MAX_BYTES: nat := 16 * 1024 * 1024
  const RECONNECT_MIN: nat := 1
  const RECONNECT_MAX: nat := 30

  datatype Event = Event(id: int, bytes: nat)

  function Bytes(es: seq<Event>): (n: nat) { if es == [] then 0 else es[0].bytes + Bytes(es[1..]) }

  // The bytes of a queue are those of its events together.
  lemma {:induction false} BytesAdd(a: seq<Event>, e: Event, b: seq<Event>)
    ensures Bytes(a + b) == Bytes(a) + Bytes(b) && Bytes([e]) == e.bytes
  {
    if a == [] {
      assert a + b == b;
    } else {
      BytesAdd(a[1..], e, b);
      assert (a + b)[1..] == a[1..] + b;
    }
  }

  // All batches, one after the other.
  ghost function Flatten(bs: seq<seq<Event>>): (r: seq<Event>) {
    if bs == [] then [] else Flatten(bs[..|bs| - 1]) + bs[|bs| - 1]
  }

  function Add(count: nat, n: nat): (r: nat) { if count + n > U64_MAX then U64_MAX else count + n }

  // What the channel answers to one try; `expired` tells that the deadline has passed by then.
  datatype Reply = Accepted | Full(expired: bool) | Disconnected

  // The answers during one publish, in order. The deadline has passed when they are used up.
  type Script = seq<Reply>

  function Next(s: Script): (r: Reply) { if s == [] then Full(true) else s[0] }

  function Rest(s: Script): (r: Script) { if s == [] then [] else s[1..] }

  datatype Error =
    | TooManyBytes | TooManyTransitions | Saturated | Closed
    | Isapi(authentication: bool, invalidInput: bool, status: Option<nat>) | Other

  type Outcome = Option<Error>

  // What the channel takes of `es`, and how the publish ends.
  function Feed(es: seq<Event>, s: Script): (r: (nat, Outcome))
    ensures r.0 <= |es| && (r.1 == None <==> r.0 == |es|) && r.1 in {None, Some(Saturated), Some(Closed)}
    decreases |s|, |es|
  {
    if es == [] then (0, None)
    else match Next(s)
      case Accepted => var rest := Feed(es[1..], Rest(s)); (rest.0 + 1, rest.1)
      case Full(expired) => if expired then (0, Some(Saturated)) else Feed(es, Rest(s))
      case Disconnected => (0, Some(Closed))
  }

  predicate Permanent(e: Error) {
    e.Closed? || (e.Isapi? &&
                  (e.authentication || e.invalidInput || e.status in {Some(401), Some(403), Some(404), Some(405)}))
  }

  predicate Unsupported(e: Error) { e.Isapi? && e.status in {Some(404), Some(405)} }

  // Events of one bundle or expiry; `broken` when they could not be made.
  datatype Batch = Batch(changes: seq<Event>, script: Script, broken: bool)

  ghost function Changes(bs: seq<Batch>): (r: seq<seq<Event>>) { seq(|bs|, k requires 0 <= k < |bs| => bs[k].changes) }

  // One connection: how subscribing fails if it does, what arrives, how the stream ends, and
  // what the assembler still holds then.
  datatype Session = Session(greeting: Script, refused: Outcome, parts: seq<Batch>, ending: Outcome, tail: seq<Batch>)

  // One turn of the loop, with the moments at which a shutdown may come.
  datatype Turn = Turn(session: Session, notified: bool, cleanup: Batch, stopBefore: bool, stopAfter: bool,
                       stopWaiting: bool)

  // Turn after turn. A shutdown comes at the latest before turn `horizon`.
  type Turns = nat -> Turn

  // The error is one that a camera answered with.
  ghost predicate FromSession(turns: Turns, e: Outcome) {
    exists k :: e == turns(k).session.refused || e == turns(k).session.ending
  }

  // ---- What becomes of the queue ---------------------------------------------------------------

  datatype Queue = Queue(pending: seq<Event>, sent: seq<Event>, batches: seq<seq<Event>>)

  // One batch offered: what is refused leaves no trace, the rest goes to the channel in order.
  ghost function Offer(q: Queue, changes: seq<Event>, script: Script): (r: (Queue, Outcome)) {
    var all := q.pending + changes;
    if Bytes(all) > MAX_BYTES then (q, Some(TooManyBytes))
    else if |all| > MAX_PENDING then (q, Some(TooManyTransitions))
    else
      var (n, end) := Feed(all, script);
      (Queue(all[n..], q.sent + all[..n], q.batches + [changes]), end)
  }

  ghost function OfferAll(q: Queue, bs: seq<Batch>): (r: (Queue, Outcome))
    decreases |bs|
  {
    if bs == [] then (q, None)
    else if bs[0].broken then (q, Some(Other))
    else
      var (next, end) := Offer(q, bs[0].changes, bs[0].script);
      if end != None then (next, end) else OfferAll(next, bs[1..])
  }

  // A connection offers nothing first, so that what was retained goes ahead; what the
  // assembler holds is offered even when the stream broke.
  ghost function Connect(q: Queue, c: Session): (r: (Queue, Outcome)) {
    var (greeted, failed) := Offer(q, [], c.greeting);
    if failed != None then (greeted, failed)
    else if c.refused != None then (greeted, c.refused)
    else
      var (during, broke) := OfferAll(greeted, c.parts);
      var (done, last) := OfferAll(during, c.tail);
      (done, if last != None then last else if broke != None then broke else c.ending)
  }

  ghost function Turned(q: Queue, t: Turn): (r: (Queue, Error)) {
    var (done, end) := Connect(q, t.session);
    (Offer(done, t.cleanup.changes, t.cleanup.script).0, if end == None then Other else end.value)
  }

  // The queue when the loop ends, and the permanent error that ended it, if one did.
  ghost function AfterLoop(q: Queue, turns: Turns, i: nat, horizon: nat): (r: (Queue, Outcome))
    requires i <= horizon && turns(horizon).stopBefore
    decreases horizon - i
  {
    if turns(i).stopBefore then (q, None)
    else
      var (next, error) := Turned(q, turns(i));
      if turns(i).stopAfter then (next, None)
      else if Permanent(error) then (next, Some(error))
      else if turns(i).stopWaiting then (next, None)
      else AfterLoop(next, turns, i + 1, horizon)
  }

  lemma LoopStep(q: Queue, turns: Turns, i: nat, horizon: nat)
    requires i <= horizon && turns(horizon).stopBefore
    ensures turns(i).stopBefore ==> AfterLoop(q, turns, i, horizon) == (q, None)
    ensures !turns(i).stopBefore ==>
              var (next, error) := Turned(q, turns(i));
              && i < horizon
              && (turns(i).stopAfter ==> AfterLoop(q, turns, i, horizon) == (next, None))
              && (!turns(i).stopAfter && Permanent(error) ==> AfterLoop(q, turns, i, horizon) == (next, Some(error)))
              && (!turns(i).stopAfter && !Permanent(error) ==>
                    AfterLoop(q, turns, i, horizon) ==
                    if turns(i).stopWaiting then (next, None) else AfterLoop(next, turns, i + 1, horizon))
  {
  }

  lemma {:induction false} OfferSplit(q: Queue, bs: seq<Batch>, k: nat)
    requires k < |bs| && OfferAll(q, bs[..k]).1 == None
    ensures var mid := OfferAll(q, bs[..k]).0;
            if bs[k].broken then OfferAll(q, bs) == (mid, Some(Other)) && OfferAll(q, bs[..k + 1]) == (mid, Some(Other))
            else
              var (next, end) := Offer(mid, bs[k].changes, bs[k].script);
              && OfferAll(q, bs[..k + 1]) == (next, end)
              && (end != None ==> OfferAll(q, bs) == (next, end))
    decreases |bs|
  {
    hide Offer;
    if k == 0 {
      assert bs[..0] == [] && bs[..1] == [bs[0]];
    } else {
      var next := Offer(q, bs[0].changes, bs[0].script).0;
      assert bs[..k][1..] == bs[1..][..k - 1] && bs[..k + 1][1..] == bs[1..][..k];
      OfferSplit(next, bs[1..], k - 1);
    }
  }

  // ---- What the channel takes, and what is delivered when it takes enough -----------------------

  ghost function Accepts(s: Script): (n: nat) {
    if s == [] then 0 else Accepts(s[..|s| - 1]) + if s[|s| - 1] == Accepted then 1 else 0
  }

  // The channel answered `k` tries in time and took `n` of `count` events; then it had them
  // all, or was full past the deadline, or was gone.
  ghost predicate Went(count: nat, s: Script, k: nat, n: nat, end: Outcome) {
    && k <= |s| && n == Accepts(s[..k]) <= count && (forall j :: 0 <= j < k ==> s[j] == Accepted || s[j] == Full(false))
    && (end == None <==> n == count)
    && (end == Some(Saturated) <==> n < count && (k == |s| || s[k] == Full(true)))
    && (end == Some(Closed) <==> n < count && k < |s| && s[k] == Disconnected)
  }

  /** How a publish feeds the channel. */
  lemma {:induction false} FeedExact(es: seq<Event>, s: Script) returns (k: nat)
    ensures Went(|es|, s, k, Feed(es, s).0, Feed(es, s).1)
    decreases |s|, |es|
  {
    k := 0;
    if es != [] && s != [] && (s[0] == Accepted || s[0] == Full(false)) {
      var rest := FeedExact(if s[0] == Accepted then es[1..] else es, s[1..]);
      k := rest + 1;
      assert s[..k] == [s[0]] + s[1..][..rest];
      AcceptsFirst(s[0], s[1..][..rest]);
    }
  }

  lemma {:induction false} AcceptsFirst(x: Reply, s: Script)
    ensures Accepts([x] + s) == Accepts(s) + if x == Accepted then 1 else 0
  {
    if s != [] {
      AcceptsFirst(x, s[..|s| - 1]);
      assert ([x] + s)[..|s|] == [x] + s[..|s| - 1];
    } else {
      assert ([x] + s)[..0] == [];
    }
  }

  // The channel takes `n` events before its first refusal that ends a publish.
  ghost predicate Takes(s: Script, n: nat) {
    n == 0 || (s != [] && match s[0]
                          case Accepted => Takes(s[1..], n - 1)
                          case Full(expired) => !expired && Takes(s[1..], n)
                          case Disconnected => false)
  }

  lemma {:induction false} FeedTakes(es: seq<Event>, s: Script)
    ensures Feed(es, s).1 == None <==> Takes(s, |es|)
    decreases |s|, |es|
  {
    if es != [] && s != [] {
      if s[0] == Accepted { FeedTakes(es[1..], s[1..]); }
      if s[0] == Full(false) { FeedTakes(es, s[1..]); }
    }
  }

  // With `waiting` in the queue, all the batches can be made and are within bounds, and the
  // channel takes them.
  ghost predicate Fits(waiting: seq<Event>, bs: seq<Batch>)
    decreases |bs|
  {
    bs == [] ||
    (!bs[0].broken && Bytes(waiting + bs[0].changes) <= 16 * 1024 * 1024 && |waiting + bs[0].changes| <= 128 &&
     Takes(bs[0].script, |waiting + bs[0].changes|) && Fits([], bs[1..]))
  }

  // All the batches were added and sent in order, after whatever waited.
  ghost predicate Delivered(q: Queue, bs: seq<Batch>, next: Queue) {
    && next.batches == q.batches + Changes(bs)
    && next.sent + next.pending == q.sent + q.pending + Flatten(Changes(bs))
    && (bs != [] || q.pending == [] ==> next.pending == [])
  }

  lemma FlattenStep(bs: seq<seq<Event>>, front: seq<seq<Event>>, last: seq<Event>)
    requires bs == front + [last]
    ensures Flatten(bs) == Flatten(front) + last
  {
    assert bs[..|bs| - 1] == front;
  }

  lemma {:induction false} FlattenAdds(a: seq<seq<Event>>, b: seq<seq<Event>>)
    ensures Flatten(a + b) == Flatten(a) + Flatten(b)
    decreases |b|
  {
    if b == [] {
      assert a + b == a && Flatten(a) + [] == Flatten(a);
    } else {
      var front, last := b[..|b| - 1], b[|b| - 1];
      FlattenAdds(a, front);
      assert a + b == a + front + [last] && b == front + [last];
      FlattenStep(a + b, a + front, last);
      FlattenStep(b, front, last);
      assert Flatten(a) + Flatten(front) + last == Flatten(a) + (Flatten(front) + last);
    }
  }

  lemma FlattenOne(b: seq<Event>)
    ensures Flatten([b]) == b
  {
    assert [b][..0] == [];
  }

  lemma OfferFits(q: Queue, b: Batch)
    requires Fits(q.pending, [b])
    ensures Offer(q, b.changes, b.script) == (Queue([], q.sent + q.pending + b.changes, q.batches + [b.changes]), None)
  {
    var all := q.pending + b.changes;
    FeedTakes(all, b.script);
    assert all[|all|..] == [] && all[..|all|] == all;
    assert q.sent + all == q.sent + q.pending + b.changes;
  }

  /** Batches that fit are all added and sent in order. */
  lemma {:induction false} FittingDelivered(q: Queue, bs: seq<Batch>)
    requires Fits(q.pending, bs)
    ensures OfferAll(q, bs).1 == None && Delivered(q, bs, OfferAll(q, bs).0)
    decreases |bs|
  {
    hide Offer, Takes, Delivered;
    if bs == [] {
      NothingDelivered(q);
    } else {
      OfferFits(q, bs[0]);
      var next := Offer(q, bs[0].changes, bs[0].script).0;
      FittingDelivered(next, bs[1..]);
      DeliveredNext(q, bs, next, OfferAll(next, bs[1..]).0);
    }
  }

  lemma NothingDelivered(q: Queue)
    ensures Delivered(q, [], q)
  {
    assert q.batches + Changes([]) == q.batches;
  }

  lemma DeliveredNext(q: Queue, bs: seq<Batch>, mid: Queue, next: Queue)
    requires bs != [] && Delivered(mid, bs[1..], next)
    requires mid == Queue([], q.sent + q.pending + bs[0].changes, q.batches + [bs[0].changes])
    ensures Delivered(q, bs, next)
  {
    hide Flatten;
    var rest := Changes(bs[1..]);
    assert Changes(bs) == [bs[0].changes] + rest;
    FlattenAdds([bs[0].changes], rest);
    FlattenOne(bs[0].changes);
    assert q.batches + [bs[0].changes] + rest == q.batches + ([bs[0].changes] + rest);
    assert mid.sent + mid.pending == mid.sent;
    assert mid.sent + Flatten(rest) == q.sent + q.pending + (bs[0].changes + Flatten(rest));
  }

  // The queue once the retained transitions have gone ahead, and once the stream has ended.
  ghost function Greeted(q: Queue, c: Session): (r: Queue) { Offer(q, [], c.greeting).0 }

  ghost function Streamed(q: Queue, c: Session): (r: (Queue, Outcome)) { OfferAll(Greeted(q, c), c.parts) }

  // The camera lets the worker in.
  ghost predicate Entered(q: Queue, c: Session) { Takes(c.greeting, |q.pending|) && c.refused == None }

  ghost predicate QueueFits(q: Queue) { |q.pending| <= MAX_PENDING && Bytes(q.pending) <= MAX_BYTES }

  /** The retained transitions go first. However the stream ends, what the assembler holds is
      offered after it: batches that fit are added and sent, and the stream's end is reported. */
  lemma {:induction false} TailOffered(q: Queue, c: Session)
    requires QueueFits(q) && Entered(q, c)
    ensures Greeted(q, c) == Queue([], q.sent + q.pending, q.batches + [[]])
    ensures var (mid, broke) := Streamed(q, c);
            Fits(mid.pending, c.tail) ==>
              && Delivered(mid, c.tail, Connect(q, c).0)
              && Connect(q, c).1 == if broke != None then broke else c.ending
  {
    hide OfferAll, Takes;
    GreetingOffered(q, c);
    var mid := Streamed(q, c).0;
    if Fits(mid.pending, c.tail) { FittingDelivered(mid, c.tail); }
  }

  lemma GreetingOffered(q: Queue, c: Session)
    requires QueueFits(q)
    ensures Offer(q, [], c.greeting).1 == None <==> Takes(c.greeting, |q.pending|)
    ensures Takes(c.greeting, |q.pending|) ==> Greeted(q, c) == Queue([], q.sent + q.pending, q.batches + [[]])
    ensures !Entered(q, c) ==>
              Connect(q, c) == (Greeted(q, c), if Takes(c.greeting, |q.pending|) then c.refused
                                               else Offer(q, [], c.greeting).1)
  {
    assert q.pending + [] == q.pending;
    FeedTakes(q.pending, c.greeting);
  }

  /** After every connection, however it went, what the tracker closes is offered. */
  lemma {:induction false} CleanupOffered(q: Queue, t: Turn)
    ensures var done := Connect(q, t.session).0;
            Fits(done.pending, [t.cleanup]) ==> Delivered(done, [t.cleanup], Turned(q, t).0)
  {
    hide Connect, Offer;
    var done := Connect(q, t.session).0;
    if Fits(done.pending, [t.cleanup]) {
      OfferFits(done, t.cleanup);
      FlattenOne(t.cleanup.changes);
      assert Changes([t.cleanup]) == [t.cleanup.changes];
    }
  }

  // ---- Runs in which the channel keeps up --------------------------------------------------------

  // Everything a turn offers to an empty queue fits.
  ghost predicate Smooth(t: Turn) { Fits([], t.session.parts) && Fits([], t.session.tail) && Fits([], [t.cleanup]) }

  ghost function Offered(t: Turn): (r: seq<seq<Event>>) {
    [[]] + (if t.session.refused == None then Changes(t.session.parts) + Changes(t.session.tail) else []) +
    [t.cleanup.changes]
  }

  ghost function OfferedBy(turns: Turns, m: nat): (r: seq<seq<Event>>) {
    if m == 0 then [] else OfferedBy(turns, m - 1) + Offered(turns(m - 1))
  }

  // How such a turn ends.
  ghost function EndOf(t: Turn): (e: Error) {
    if t.session.refused != None then t.session.refused.value
    else if t.session.ending != None then t.session.ending.value else Other
  }

  // Nothing but a broken receiver or a camera that will not talk ends the loop for good.
  ghost predicate GivesUp(e: Error) {
    || e == Closed
    || (e.Isapi? && (e.authentication || e.invalidInput || e.status == Some(401) || e.status == Some(403) ||
                     e.status == Some(404) || e.status == Some(405)))
  }

  // The loop goes on to another turn.
  ghost predicate GoesOn(t: Turn) { !t.stopAfter && !GivesUp(EndOf(t)) && !t.stopWaiting }

  // The loop takes `m` turns.
  ghost predicate TakesTurns(turns: Turns, m: nat) {
    && (forall k :: 0 <= k < m ==> !turns(k).stopBefore) && (forall k :: 0 <= k < m - 1 ==> GoesOn(turns(k)))
    && ((m > 0 ==> GoesOn(turns(m - 1))) ==> turns(m).stopBefore)
  }

  // It has sent what was offered, in order, and nothing else.
  ghost predicate AllSent(q: Queue, offered: seq<seq<Event>>, next: Queue) {
    next == Queue([], q.sent + Flatten(offered), q.batches + offered)
  }

  lemma {:induction false} SmoothTurn(q: Queue, t: Turn)
    requires q.pending == [] && Smooth(t)
    ensures AllSent(q, Offered(t), Turned(q, t).0) && Turned(q, t).1 == EndOf(t)
  {
    hide OfferAll, Offer, Connect, Fits, Takes, Delivered, AllSent, Streamed, Flatten, Changes;
    var c, done := t.session, Connect(q, t.session).0;
    GreetingIdle(q, c);
    GreetingOffered(q, c);
    GreetingSent(q, c);
    var offered := [[]];
    if c.refused == None {
      TailOffered(q, c);
      var mid := Streamed(q, c).0;
      StreamSent(q, c);
      DeliveredAll(mid, c.tail, done);
      AllSentChains(q, [[]], Greeted(q, c), Changes(c.parts), mid);
      AllSentChains(q, [[]] + Changes(c.parts), mid, Changes(c.tail), done);
      offered := [[]] + (Changes(c.parts) + Changes(c.tail));
      assert [[]] + Changes(c.parts) + Changes(c.tail) == offered;
    }
    StillEmpty(q, offered, done);
    CleanupOffered(q, t);
    DeliveredAll(done, [t.cleanup], Turned(q, t).0);
    AllSentChains(q, offered, done, Changes([t.cleanup]), Turned(q, t).0);
    OneChange(t.cleanup);
    assert offered == [[]] + (if c.refused == None then Changes(c.parts) + Changes(c.tail) else []);
  }

  lemma OneChange(b: Batch)
    ensures Changes([b]) == [b.changes]
  {
  }

  lemma DeliveredAll(q: Queue, bs: seq<Batch>, next: Queue)
    requires q.pending == [] && Delivered(q, bs, next)
    ensures AllSent(q, Changes(bs), next) && next.pending == []
  {
    assert next.sent + [] == next.sent && q.sent + [] == q.sent;
  }

  lemma GreetingSent(q: Queue, c: Session)
    requires q.pending == [] && Greeted(q, c) == Queue([], q.sent + q.pending, q.batches + [[]])
    ensures AllSent(q, [[]], Greeted(q, c))
  {
    FlattenOne([]);
  }

  lemma StreamSent(q: Queue, c: Session)
    requires Greeted(q, c).pending == [] && Fits([], c.parts)
    ensures var (mid, broke) := Streamed(q, c);
            AllSent(Greeted(q, c), Changes(c.parts), mid) && mid.pending == [] && broke == None
  {
    hide Greeted, Fits, OfferAll, Delivered;
    FittingDelivered(Greeted(q, c), c.parts);
    DeliveredAll(Greeted(q, c), c.parts, Streamed(q, c).0);
  }

  lemma GreetingIdle(q: Queue, c: Session)
    requires q.pending == []
    ensures QueueFits(q) && Takes(c.greeting, |q.pending|)
  {
  }

  lemma AllSentChains(q: Queue, a: seq<seq<Event>>, mid: Queue, b: seq<seq<Event>>, next: Queue)
    requires AllSent(q, a, mid) && AllSent(mid, b, next)
    ensures AllSent(q, a + b, next)
  {
    FlattenAdds(a, b);
    assert q.batches + a + b == q.batches + (a + b);
  }

  lemma {:induction false} SmoothFrom(q: Queue, now: Queue, turns: Turns, i: nat, horizon: nat) returns (m: nat)
    requires i <= horizon && turns(horizon).stopBefore && (forall k :: 0 <= k <= horizon ==> Smooth(turns(k)))
    requires q.pending == [] && AllSent(q, OfferedBy(turns, i), now)
    requires forall k :: 0 <= k < i ==> !turns(k).stopBefore && GoesOn(turns(k))
    ensures m <= horizon && TakesTurns(turns, m)
    ensures var (last, permanent) := AfterLoop(now, turns, i, horizon);
            && AllSent(q, OfferedBy(turns, m), last)
            && permanent == (if m > 0 && !turns(m - 1).stopAfter && GivesUp(EndOf(turns(m - 1))) then
                               Some(EndOf(turns(m - 1))) else None)
    decreases horizon - i
  {
    hide Smooth, Turned, AfterLoop, AllSent, Offered, EndOf;
    LoopStep(now, turns, i, horizon);
    m := i;
    if !turns(i).stopBefore {
      StillEmpty(q, OfferedBy(turns, i), now);
      SmoothTurn(now, turns(i));
      var next := Turned(now, turns(i)).0;
      AllSentChains(q, OfferedBy(turns, i), now, Offered(turns(i)), next);
      m := i + 1;
      if GoesOn(turns(i)) { m := SmoothFrom(q, next, turns, i + 1, horizon); }
    }
  }

  lemma NothingSent(q: Queue, turns: Turns)
    requires q.pending == []
    ensures AllSent(q, OfferedBy(turns, 0), q)
  {
    assert q.sent + [] == q.sent && q.batches + [] == q.batches;
  }

  lemma StillEmpty(q: Queue, offered: seq<seq<Event>>, next: Queue)
    requires AllSent(q, offered, next)
    ensures next.pending == []
  {
  }

  /** While the channel keeps up, the loop offers and sends everything of every turn it takes,
      in order; it takes turns until a shutdown or an error that ends it for good. */
  lemma {:induction false} SmoothRun(q: Queue, turns: Turns, horizon: nat) returns (m: nat)
    requires turns(horizon).stopBefore && q.pending == [] && forall k :: 0 <= k <= horizon ==> Smooth(turns(k))
    ensures m <= horizon && TakesTurns(turns, m)
    ensures var (last, permanent) := AfterLoop(q, turns, 0, horizon);
            && AllSent(q, OfferedBy(turns, m), last)
            && permanent == (if m > 0 && !turns(m - 1).stopAfter && GivesUp(EndOf(turns(m - 1))) then
                               Some(EndOf(turns(m - 1))) else None)
  {
    hide Smooth, TakesTurns, AllSent, AfterLoop, EndOf, GivesUp, GoesOn;
    NothingSent(q, turns);
    m := SmoothFrom(q, q, turns, 0, horizon);
  }

  ghost predicate AllSmooth(turns: Turns, horizon: nat) { forall k :: 0 <= k <= horizon ==> Smooth(turns(k)) }

  ghost predicate SentAllOffered(q: Queue, turns: Turns, next: Queue) {
    exists m: nat :: TakesTurns(turns, m) && AllSent(q, OfferedBy(turns, m), next)
  }

  lemma SmoothLoop(q: Queue, turns: Turns, horizon: nat)
    requires turns(horizon).stopBefore && q.pending == [] && AllSmooth(turns, horizon)
    ensures SentAllOffered(q, turns, AfterLoop(q, turns, 0, horizon).0)
  {
    hide Smooth, TakesTurns, AllSent, AfterLoop, EndOf, GivesUp, OfferedBy;
    var m := SmoothRun(q, turns, horizon);
  }

  class Worker {
    var pending: seq<Event>
    var transitions: nat
    var stalls: nat
    var dropped: nat
    var cancelled: bool
    ghost var sent: seq<Event>
    ghost var batches: seq<seq<Event>>

    ghost predicate Valid()
      reads this
    {
      && sent + pending == Flatten(batches)
      && |pending| <= MAX_PENDING && Bytes(pending) <= MAX_BYTES
      && transitions == (if |sent| > U64_MAX then U64_MAX else |sent|)
    }

    ghost function State(): (q: Queue)
      reads this`pending, this`sent, this`batches
    {
      Queue(pending, sent, batches)
    }

    // Nothing is taken back.
    twostate predicate Grows()
      reads this
    {
      && old(sent) <= sent && old(batches) <= batches && dropped == old(dropped) && (old(cancelled) ==> cancelled)
    }

    constructor ()
      ensures Valid() && State() == Queue([], [], []) && stalls == 0 && dropped == 0 && !cancelled
    {
      pending, sent, batches := [], [], [];
      transitions, stalls, dropped, cancelled := 0, 0, 0, false;
    }

    /** A batch is taken whole or not at all; then the queue is fed to the channel in order. */
    method Publish(changes: seq<Event>, script: Script) returns (r: Outcome)
      requires Valid()
      modifies this`pending, this`transitions, this`stalls, this`sent, this`batches
      ensures Valid() && Grows()
      ensures (State(), r) == Offer(old(State()), changes, script)
      ensures r == Some(TooManyBytes) <==> Bytes(old(pending) + changes) > 16 * 1024 * 1024
      ensures r == Some(TooManyTransitions) <==>
              Bytes(old(pending) + changes) <= 16 * 1024 * 1024 && |old(pending)| + |changes| > 128
      ensures Refused(r) ==> State() == old(State())
      ensures (r == None ==> pending == []) && (r != None ==> !r.value.Isapi?)
      ensures !Refused(r) ==>
                var n := |sent| - |old(sent)|;
                && batches == old(batches) + [changes] && 0 <= n <= |old(pending) + changes|
                && sent == old(sent) + (old(pending) + changes)[..n] && pending == (old(pending) + changes)[n..]
                && exists k :: Went(|old(pending) + changes|, script, k, n, r)
      ensures stalls == (if r == Some(Saturated) then Add(old(stalls), 1) else old(stalls))
    {
      hide Feed, Flatten;
      if Bytes(pending + changes) > MAX_BYTES {
        return Some(TooManyBytes);
      }
      if |changes| > MAX_PENDING - |pending| {
        return Some(TooManyTransitions);
      }
      BatchTaken(sent, pending, batches, changes);
      pending := pending + changes;
      batches := batches + [changes];
      ghost var all := pending;
      r := Drain(script);
      ghost var k := FeedExact(all, script);
    }

    // The loop of a publish.
    method Drain(script: Script) returns (r: Outcome)
      requires Valid()
      modifies this`pending, this`transitions, this`stalls, this`sent
      ensures Valid()
      ensures var (n, end) := Feed(old(pending), script);
              && r == end && sent == old(sent) + old(pending)[..n] && pending == old(pending)[n..]
              && stalls == (if r == Some(Saturated) then Add(old(stalls), 1) else old(stalls))
    {
      hide Feed, Bytes, Flatten;
      var s := script;
      ghost var n := 0;
      while pending != []
        invariant Valid() && stalls == old(stalls)
        invariant 0 <= n <= |old(pending)| && pending == old(pending)[n..] && sent == old(sent) + old(pending)[..n]
        invariant Feed(old(pending), script) == (n + Feed(pending, s).0, Feed(pending, s).1)
        decreases |s|, |pending|
      {
        FeedStep(pending, s);
        FrontMoves(sent, pending);
        ghost var queue := pending;
        var event := pending[0];
        pending := pending[1..];
        match Next(s) {
          case Accepted =>
            transitions := Add(transitions, 1);
            sent := sent + [event];
            n := n + 1;
          case Full(expired) =>
            pending := [event] + pending;
            assert pending == queue;
            if expired {
              stalls := Add(stalls, 1);
              return Some(Saturated);
            }
          case Disconnected =>
            pending := [event] + pending;
            assert pending == queue;
            return Some(Closed);
        }
        s := Rest(s);
      }
      FeedNothing(s);
      r := None;
    }

    // Batches one after the other, up to the first that fails.
    method PublishAll(bs: seq<Batch>) returns (r: Outcome)
      requires Valid()
      modifies this`pending, this`transitions, this`stalls, this`sent, this`batches
      ensures Valid() && Grows()
      ensures (State(), r) == OfferAll(old(State()), bs)
      ensures r == None ==> batches == old(batches) + Changes(bs)
      ensures r == None ==> pending == [] || (bs == [] && pending == old(pending))
      ensures r != None ==> !r.value.Isapi?
    {
      hide Offer, OfferAll, Bytes, Flatten;
      NothingOffered(State(), bs);
      for k := 0 to |bs|
        invariant Valid() && Grows() && (if k > 0 then pending == [] else pending == old(pending))
        invariant batches == old(batches) + Changes(bs[..k])
        invariant OfferAll(old(State()), bs[..k]) == (State(), None)
      {
        OfferSplit(old(State()), bs, k);
        if bs[k].broken {
          return Some(Other);
        }
        r := Publish(bs[k].changes, bs[k].script);
        if r != None {
          return;
        }
        assert Changes(bs[..k + 1]) == Changes(bs[..k]) + [bs[k].changes];
      }
      assert bs[..|bs|] == bs;
      r := None;
    }

    /** One connection, from the retained transitions to those the assembler still held. */
    method Observe(c: Session) returns (r: Outcome)
      requires Valid()
      modifies this`pending, this`transitions, this`stalls, this`sent, this`batches
      ensures Valid() && Grows()
      ensures (State(), r) == Connect(old(State()), c)
      ensures r != None && r.value.Isapi? ==> r == c.refused || r == c.ending
      ensures r == None ==> pending == [] && c.refused == None && c.ending == None
      ensures r == None ==> batches == old(batches) + [[]] + Changes(c.parts) + Changes(c.tail)
      ensures Entered(old(State()), c) ==>
                var (mid, broke) := Streamed(old(State()), c);
                Fits(mid.pending, c.tail) ==>
                  Delivered(mid, c.tail, State()) && r == if broke != None then broke else c.ending
    {
      hide Offer, OfferAll, Bytes, Flatten, Fits, Delivered, Entered, Streamed, Takes;
      if Entered(State(), c) { TailOffered(State(), c); }
      r := Publish([], c.greeting);
      if r != None {
        return;
      }
      if c.refused != None {
        return c.refused;
      }
      var result := PublishAll(c.parts);
      if result == None {
        result := c.ending;
      }
      r := PublishAll(c.tail);
      if r == None {
        r := result;
      }
    }

    // Connect and publish until that ends, then publish what the tracker closes.
    method TakeTurn(t: Turn) returns (error: Error)
      requires Valid()
      modifies this`pending, this`transitions, this`stalls, this`sent, this`batches
      ensures Valid() && Grows()
      ensures (State(), error) == Turned(old(State()), t)
      ensures error.Isapi? ==> Some(error) == t.session.refused || Some(error) == t.session.ending
      ensures var done := Connect(old(State()), t.session).0;
              Fits(done.pending, [t.cleanup]) ==> Delivered(done, [t.cleanup], State())
    {
      hide Offer, Connect, Bytes, Flatten, Fits, Delivered;
      CleanupOffered(State(), t);
      var result := Observe(t.session);
      var _ := Publish(t.cleanup.changes, t.cleanup.script);
      error := if result == None then Other else result.value;
    }

    /** Connect again and again until a shutdown or a permanent error, which is returned. Every
        turn before the last is gone through, with a wait after it. */
    method Loop(turns: Turns, ghost horizon: nat) returns (permanent: Outcome, ghost waits: seq<nat>)
      requires Valid() && turns(horizon).stopBefore
      modifies this`pending, this`transitions, this`stalls, this`sent, this`batches, this`cancelled
      ensures Valid() && Grows()
      ensures (State(), permanent) ==
              if old(cancelled) then (old(State()), None) else AfterLoop(old(State()), turns, 0, horizon)
      ensures permanent == None <==> cancelled
      ensures permanent != None ==> GivesUp(permanent.value)
      ensures permanent != None && permanent.value.Isapi? ==> FromSession(turns, permanent)
      ensures BacksOff(turns, waits)
    {
      hide Bytes, Flatten, Permanent, GivesUp, Turned, FromSession, AfterLoop;
      var backoff, i := RECONNECT_MIN, 0;
      waits := [];
      while !cancelled
        invariant 0 <= i <= horizon && Valid() && Grows()
        invariant if old(cancelled) then cancelled && State() == old(State())
                  else !cancelled && AfterLoop(State(), turns, i, horizon) == AfterLoop(old(State()), turns, 0, horizon)
        invariant |waits| == i && BacksOff(turns, waits)
        invariant backoff == (if i == 0 then RECONNECT_MIN else Doubled(waits[i - 1]))
        decreases horizon - i
      {
        LoopStep(State(), turns, i, horizon);
        cancelled := turns(i).stopBefore;
        if cancelled {
          return None, waits;
        }
        var error := TakeTurn(turns(i));
        cancelled := turns(i).stopAfter;
        if cancelled {
          return None, waits;
        }
        if Permanent(error) {
          AnsweredBy(turns, i, error);
          PermanentIs(error);
          return Some(error), waits;
        }
        if turns(i).notified {
          backoff := RECONNECT_MIN;
        }
        WaitNext(turns, waits, backoff);
        waits := waits + [backoff];
        cancelled := turns(i).stopWaiting;
        if cancelled {
          return None, waits;
        }
        backoff := if backoff * 2 < RECONNECT_MAX then backoff * 2 else RECONNECT_MAX;
        i := i + 1;
      }
      permanent := None;
    }

    /** Every accepted transition is delivered or dropped when the worker stops, and the
        fallback takes over only from an unsupported camera with nothing left to deliver. */
    method Run(turns: Turns, ghost horizon: nat, stopAtEnd: bool) returns (fallback: bool, ghost permanent: Outcome)
      requires Valid() && dropped == 0 && turns(horizon).stopBefore
      modifies this
      ensures Valid() && old(sent) <= sent && old(batches) <= batches
      ensures (State(), permanent) ==
              if old(cancelled) then (old(State()), None) else AfterLoop(old(State()), turns, 0, horizon)
      ensures |Flatten(batches)| <= U64_MAX ==> transitions + dropped == |Flatten(batches)| && dropped == |pending|
      ensures fallback <==> permanent != None && permanent.value.Isapi? && pending == [] && !stopAtEnd &&
                            (permanent.value.status == Some(404) || permanent.value.status == Some(405))
      ensures fallback ==> sent == Flatten(batches) && dropped == 0 && !cancelled && FromSession(turns, permanent)
      ensures old(pending) == [] && !old(cancelled) && AllSmooth(turns, horizon) ==>
                SentAllOffered(old(State()), turns, State())
    {
      hide AfterLoop, FromSession, AllSmooth, SentAllOffered, Bytes, Permanent, BacksOff, Flatten;
      if pending == [] && AllSmooth(turns, horizon) { SmoothLoop(State(), turns, horizon); }
      var error, _ := Loop(turns, horizon);
      permanent := error;
      var unsupported := error != None && Unsupported(error.value);
      if pending != [] {
        dropped := Add(dropped, |pending|);
      }
      cancelled := cancelled || stopAtEnd;
      fallback := unsupported && pending == [] && !cancelled;
    }
  }

  function Doubled(wait: nat): (r: nat) { if wait * 2 < RECONNECT_MAX then wait * 2 else RECONNECT_MAX }

  // Each wait is a second after a notification, and else twice the one before, up to 30 seconds.
  ghost predicate BacksOff(turns: Turns, waits: seq<nat>) {
    forall k: nat {:trigger WaitAt(turns, waits, k)} :: k < |waits| ==> waits[k] == WaitAt(turns, waits, k)
  }

  ghost function WaitAt(turns: Turns, waits: seq<nat>, k: nat): (wait: nat)
    requires k <= |waits|
  {
    if k == 0 || turns(k).notified then RECONNECT_MIN else Doubled(waits[k - 1])
  }

  lemma WaitNext(turns: Turns, waits: seq<nat>, wait: nat)
    requires BacksOff(turns, waits) && wait == WaitAt(turns, waits, |waits|)
    ensures BacksOff(turns, waits + [wait])
  {
    var more := waits + [wait];
    forall k: nat | k < |more| ensures more[k] == WaitAt(turns, more, k) {
      if k < |waits| { assert more[k] == waits[k] == WaitAt(turns, waits, k); }
    }
  }

  /** So every wait is between one and thirty seconds. */
  lemma {:induction false} WaitsBounded(turns: Turns, waits: seq<nat>, k: nat)
    requires BacksOff(turns, waits) && k < |waits|
    ensures 1 <= waits[k] <= 30 && (k == 0 || turns(k).notified ==> waits[k] == 1)
    ensures k > 0 && !turns(k).notified ==> waits[k] == if waits[k - 1] < 15 then 2 * waits[k - 1] else 30
  {
    assert waits[k] == WaitAt(turns, waits, k);
    if k > 0 { WaitsBounded(turns, waits, k - 1); }
  }

  lemma PermanentIs(e: Error)
    ensures Permanent(e) <==> GivesUp(e)
  {
  }

  lemma AnsweredBy(turns: Turns, k: nat, error: Error)
    requires error.Isapi? ==> Some(error) == turns(k).session.refused || Some(error) == turns(k).session.ending
    ensures error.Isapi? ==> FromSession(turns, Some(error))
  {
  }

  lemma NothingOffered(q: Queue, bs: seq<Batch>)
    ensures OfferAll(q, bs[..0]) == (q, None)
  {
  }

  lemma FrontMoves(sent: seq<Event>, pending: seq<Event>)
    requires pending != []
    ensures (sent + [pending[0]]) + pending[1..] == sent + pending && [pending[0]] + pending[1..] == pending
  {
  }

  lemma FeedNothing(s: Script)
    ensures Feed([], s) == (0, None)
  {
  }

  lemma FeedStep(es: seq<Event>, s: Script)
    requires es != []
    ensures Bytes(es[1..]) <= Bytes(es) && (Next(s) != Full(true) ==> |Rest(s)| < |s|)
    ensures Next(s) == Accepted ==> Feed(es, s) == (Feed(es[1..], Rest(s)).0 + 1, Feed(es[1..], Rest(s)).1)
    ensures Next(s) == Full(false) ==> Feed(es, s) == Feed(es, Rest(s))
    ensures Next(s) == Full(true) ==> Feed(es, s) == (0, Some(Saturated))
    ensures Next(s) == Disconnected ==> Feed(es, s) == (0, Some(Closed))
  {
  }

  lemma BatchTaken(sent: seq<Event>, pending: seq<Event>, batches: seq<seq<Event>>, changes: seq<Event>)
    requires sent + pending == Flatten(batches)
    ensures sent + (pending + changes) == Flatten(batches + [changes])
  {
    assert (batches + [changes])[..|batches|] == batches;
    assert sent + (pending + changes) == (sent + pending) + changes;
  }

  predicate Refused(r: Outcome) { r == Some(TooManyBytes) || r == Some(TooManyTransitions) }
}

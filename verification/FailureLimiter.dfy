/** The failed-authentication limiter: a bounded table of fixed windows, one per address. */
module FailureLimiter {
  type Address = nat

  const MAX_ADDRESSES: nat := 1024
  const U32_MAX: nat := 0xFFFF_FFFF
  const SECOND: int := 1_000_000_000

  // Times and durations are in nanoseconds.
  datatype Window = Window(start: int, attempts: nat)
  type Table = map<Address, Window>

  datatype Limits = Limits(attempts: nat, window: int)

  predicate ValidLimits(l: Limits) { 1 <= l.attempts <= U32_MAX && l.window >= SECOND }

  function Max(a: int, b: int): (m: int) { if a < b then b else a }

  datatype Verdict = RateLimited | Failed | Passed

  // Saturating, so zero when `start` is still to come.
  function Elapsed(now: int, start: int): (d: int) { if now < start then 0 else now - start }

  function Live(t: Table, now: int, l: Limits): (r: Table) {
    map a | a in t && Elapsed(now, t[a].start) < l.window :: t[a]
  }

  predicate Limited(t: Table, a: Address, l: Limits) { a in t && t[a].attempts >= l.attempts }

  ghost predicate IsOldest(t: Table, v: Address) { v in t && forall a :: a in t ==> t[v].start <= t[a].start }

  // A new address does not fit, so another one loses its window.
  predicate Evicts(t: Table, a: Address) { |t| == MAX_ADDRESSES && a !in t }

  function Count(w: Window): (r: Window) { w.(attempts := if w.attempts < U32_MAX then w.attempts + 1 else U32_MAX) }

  function Register(t: Table, a: Address, now: int, victim: Address): (r: Table) {
    var room := if Evicts(t, a) then t - {victim} else t;
    room[a := Count(if a in room then room[a] else Window(now, 0))]
  }

  // `ok` says whether the presented key is good; `victim` is the address evicted, if one is.
  datatype Attempt = Attempt(address: Address, now: int, ok: bool, victim: Address)

  function VerdictOf(t: Table, e: Attempt, l: Limits): (v: Verdict) {
    if Limited(Live(t, e.now, l), e.address, l) then RateLimited else if e.ok then Passed else Failed
  }

  function After(t: Table, e: Attempt, l: Limits): (r: Table) {
    var live := Live(t, e.now, l);
    match VerdictOf(t, e, l)
    case RateLimited => live
    case Passed => live - {e.address}
    case Failed => Register(live, e.address, e.now, e.victim)
  }

  // An eviction takes an address whose window is oldest.
  ghost predicate Fair(t: Table, e: Attempt, l: Limits) {
    VerdictOf(t, e, l) == Failed && Evicts(Live(t, e.now, l), e.address) ==> IsOldest(Live(t, e.now, l), e.victim)
  }

  // The window of `a` still runs.
  ghost predicate Open(t: Table, a: Address, now: int, l: Limits) { a in t && now < t[a].start + l.window }

  /** What the answer to an attempt and the table after it must be: an address is turned away
      exactly when its window runs and is used up; a good key forgets the address; a bad one
      counts; and no other running window is lost or changed, save that the oldest one makes
      room for a new address. */
  ghost predicate Answered(t: Table, e: Attempt, l: Limits, v: Verdict, u: Table) {
    && (v == RateLimited <==> Open(t, e.address, e.now, l) && t[e.address].attempts >= l.attempts)
    && (v == Passed <==> v != RateLimited && e.ok)
    && (v == RateLimited ==> e.address in u && u[e.address] == t[e.address])
    && (v == Passed ==> e.address !in u)
    && (v == Failed ==>
          e.address in u &&
          u[e.address] == (if Open(t, e.address, e.now, l) then Window(t[e.address].start, t[e.address].attempts + 1)
                           else Window(e.now, 1)))
    && (forall a :: a in u && a != e.address ==> Open(t, a, e.now, l) && u[a] == t[a])
    && (forall a :: Open(t, a, e.now, l) && a !in u && a != e.address ==>
          v == Failed && a == e.victim && MustMakeRoom(t, e, l) && OldestOpen(t, a, e.now, l))
    && (v == Failed && MustMakeRoom(t, e, l) ==> e.victim !in u)
  }

  ghost predicate MustMakeRoom(t: Table, e: Attempt, l: Limits) {
    !Open(t, e.address, e.now, l) && |set a | a in t && Open(t, a, e.now, l)| == 1024
  }

  ghost predicate OldestOpen(t: Table, v: Address, now: int, l: Limits) {
    Open(t, v, now, l) && forall a :: Open(t, a, now, l) ==> t[v].start <= t[a].start
  }

  lemma LiveIsOpen(t: Table, now: int, l: Limits)
    requires ValidLimits(l)
    ensures forall a :: a in Live(t, now, l) <==> Open(t, a, now, l)
    ensures |Live(t, now, l)| == |set a | a in t && Open(t, a, now, l)|
  {
    assert Live(t, now, l).Keys == set a | a in t && Open(t, a, now, l);
  }

  lemma {:induction false} AttemptExact(t: Table, e: Attempt, l: Limits)
    requires ValidLimits(l) && Fair(t, e, l)
    ensures Answered(t, e, l, VerdictOf(t, e, l), After(t, e, l))
  {
    LiveIsOpen(t, e.now, l);
  }

  class Limiter {
    var table: Table
    var limits: Limits

    ghost predicate Valid()
      reads this
    {
      ValidLimits(limits) && |table| <= MAX_ADDRESSES
    }

    constructor ()
      ensures Valid() && table == map[] && limits == Limits(5, 60 * SECOND)
    {
      table, limits := map[], Limits(5, 60 * SECOND);
    }

    method Configure(attempts: nat, window: int)
      requires Valid() && attempts <= U32_MAX
      modifies this`limits
      ensures Valid() && limits == Limits(Max(attempts, 1), Max(window, SECOND))
    {
      limits := Limits(if attempts < 1 then 1 else attempts, if window < SECOND then SECOND else window);
    }

    method Oldest() returns (victim: Address)
      requires table != map[]
      ensures IsOldest(table, victim)
    {
      victim :| victim in table;
      var todo := table.Keys;
      while todo != {}
        invariant victim in table && todo <= table.Keys
        invariant forall a :: a in table && a !in todo ==> table[victim].start <= table[a].start
        decreases todo
      {
        var a :| a in todo;
        if table[a].start < table[victim].start {
          victim := a;
        }
        todo := todo - {a};
      }
    }

    method RegisterFailure(address: Address, now: int) returns (ghost victim: Address)
      requires Valid()
      modifies this`table
      ensures Valid() && table == Register(old(table), address, now, victim)
      ensures Evicts(old(table), address) ==> IsOldest(old(table), victim)
    {
      victim := 0;
      if |table| == MAX_ADDRESSES && address !in table {
        var oldest := Oldest();
        victim := oldest;
        table := table - {oldest};
      }
      table := table[address := Count(if address in table then table[address] else Window(now, 0))];
    }

    /** What an authentication attempt does to the table. */
    method Authenticate(address: Address, now: int, ok: bool) returns (verdict: Verdict, ghost victim: Address)
      requires Valid()
      modifies this`table
      ensures Valid()
      ensures var e := Attempt(address, now, ok, victim);
              verdict == VerdictOf(old(table), e, limits) && table == After(old(table), e, limits) &&
                Fair(old(table), e, limits)
      ensures Answered(old(table), Attempt(address, now, ok, victim), limits, verdict, table)
    {
      hide Answered;
      victim := 0;
      FewerKeys(Live(table, now, limits), table);
      table := Live(table, now, limits);
      if Limited(table, address, limits) {
        verdict := RateLimited;
      } else if ok {
        FewerKeys(table - {address}, table);
        table := table - {address};
        verdict := Passed;
      } else {
        victim := RegisterFailure(address, now);
        verdict := Failed;
      }
      AttemptExact(old(table), Attempt(address, now, ok, victim), limits);
    }
  }

  lemma {:induction false} FewerKeys(t: Table, u: Table)
    requires t.Keys <= u.Keys
    ensures |t| <= |u|
    decreases t
  {
    if t != map[] {
      var a :| a in t;
      FewerKeys(t - {a}, u - {a});
      assert |t - {a}| == |t| - 1 by { assert (t - {a}).Keys == t.Keys - {a}; }
      assert |u - {a}| == |u| - 1 by { assert (u - {a}).Keys == u.Keys - {a}; }
    }
  }

  // ---- Whole runs ------------------------------------------------------------------------------

  // The table before and after each attempt. The clock does not go back.
  ghost predicate Run(ts: seq<Table>, es: seq<Attempt>, l: Limits) {
    && ValidLimits(l) && |ts| == |es| + 1
    && (forall i :: 0 <= i < |es| ==> ts[i + 1] == After(ts[i], es[i], l))
    && (forall i, j :: 0 <= i <= j < |es| ==> es[i].now <= es[j].now)
  }

  // Windows hold at least one failure and started no later than `now`.
  ghost predicate Started(t: Table, now: int) {
    forall a :: a in t ==> 1 <= t[a].attempts && t[a].start <= now
  }

  // The attempt takes the window of `a` away: `a` signs in, or `a` is evicted.
  ghost predicate Disturbs(t: Table, e: Attempt, l: Limits, a: Address) {
    match VerdictOf(t, e, l)
    case RateLimited => false
    case Passed => e.address == a
    case Failed => e.victim == a && Evicts(Live(t, e.now, l), e.address)
  }

  ghost predicate Undisturbed(ts: seq<Table>, es: seq<Attempt>, l: Limits, a: Address, i: nat, j: nat)
    requires |ts| == |es| + 1 && i <= j <= |es|
  {
    forall k :: i <= k < j ==> !Disturbs(ts[k], es[k], l, a)
  }

  ghost predicate Admits(t: Table, e: Attempt, l: Limits, a: Address) {
    e.address == a && VerdictOf(t, e, l) == Failed
  }

  // The times at which attempts i up to j let `a` try a key that turned out bad.
  ghost function Admitted(ts: seq<Table>, es: seq<Attempt>, l: Limits, a: Address, i: nat, j: nat): (r: seq<int>)
    requires |ts| == |es| + 1 && i <= j <= |es|
  {
    if i == j then []
    else
      Admitted(ts, es, l, a, i, j - 1) + (if Admits(ts[j - 1], es[j - 1], l, a) then [es[j - 1].now] else [])
  }

  // Any two of `times` that are `gap` apart are at least a window apart.
  ghost predicate Spaced(times: seq<int>, gap: nat, l: Limits) {
    forall m, q :: 0 <= m && q == m + gap < |times| ==> times[m] + l.window <= times[q]
  }

  // The last window started at `s` and holds `n` failures: the last ones of `times`, and
  // perhaps some before them. `begins` says that no window was open before `times`.
  ghost predicate LastWindow(times: seq<int>, s: int, n: nat, l: Limits, begins: bool) {
    var first := |times| - n;
    && 1 <= n <= l.attempts
    && (forall m :: 0 <= m < |times| && m < first ==> times[m] <= s)
    && (forall m :: 0 <= m < |times| && m < first && first - m >= l.attempts ==> times[m] + l.window <= s)
    && (0 <= first < |times| ==> times[first] == s)
    && (begins ==> 0 <= first && (first > 0 ==> times[0] + l.window <= s))
  }

  // From the first failure on, only the limit fits into one window.
  ghost predicate Capped(times: seq<int>, l: Limits) {
    forall m :: l.attempts <= m < |times| ==> times[0] + l.window <= times[m]
  }

  ghost predicate History(times: seq<int>, s: int, n: nat, now: int, l: Limits, begins: bool) {
    && ValidLimits(l) && 1 <= n && s <= now
    && (if times == [] then begins ==> s + l.window <= now else LastWindow(times, s, n, l, begins))
    && Spaced(times, 2 * l.attempts - 1, l)
    && (begins ==> Capped(times, l))
    && (forall m :: 0 <= m < |times| ==> times[m] <= now)
  }

  // The table knows that window as long as it lasts.
  ghost predicate Entry(t: Table, a: Address, s: int, n: nat, now: int, l: Limits) {
    if a in t then t[a] == Window(s, n) else s + l.window <= now
  }

  // One more failure, in the same window or in a new one.
  lemma {:induction false} FailureSpaced(times: seq<int>, s: int, n: nat, now: int, l: Limits, begins: bool, same: bool)
    requires ValidLimits(l) && LastWindow(times, s, n, l, begins) && Spaced(times, 2 * l.attempts - 1, l)
    requires begins ==> Capped(times, l)
    requires forall m :: 0 <= m < |times| ==> times[m] <= now
    requires times != [] && s <= now && (if same then n < l.attempts else s + l.window <= now)
    ensures LastWindow(times + [now], if same then s else now, if same then n + 1 else 1, l, begins)
    ensures Spaced(times + [now], 2 * l.attempts - 1, l)
    ensures begins ==> Capped(times + [now], l)
  {
    var next := times + [now];
    var first := |times| - n;
    forall m | 0 <= m < |times| && |times| - m >= l.attempts && !same ensures times[m] + l.window <= now {
      if m < first { assert times[m] <= s; } else { assert m == first; }
    }
    forall m, q | 0 <= m && q == m + (2 * l.attempts - 1) < |next| ensures next[m] + l.window <= next[q] {
      if q == |times| && same { assert first - m >= l.attempts; }
    }
  }

  // What an attempt does to the entry of an address it does not disturb.
  lemma EntryAfter(t: Table, e: Attempt, l: Limits, a: Address)
    requires ValidLimits(l) && !Disturbs(t, e, l, a)
    ensures var live := a in t && Elapsed(e.now, t[a].start) < l.window;
            if Admits(t, e, l, a) then
              a in After(t, e, l) && (live ==> t[a].attempts < l.attempts) &&
              After(t, e, l)[a] == (if live then t[a].(attempts := t[a].attempts + 1) else Window(e.now, 1))
            else (a in After(t, e, l) <==> live) && (live ==> After(t, e, l)[a] == t[a])
  {
  }

  lemma {:induction false} HistoryFirst(s: int, n: nat, was: int, now: int, l: Limits, begins: bool, same: bool)
    requires History([], s, n, was, l, begins) && was <= now
    requires if same then n < l.attempts && now < s + l.window else s + l.window <= now
    ensures History([now], if same then s else now, if same then n + 1 else 1, now, l, begins)
  {
    hide LastWindow, Spaced, Capped;
    FirstFailure(if same then s else now, if same then n + 1 else 1, now, l, begins);
  }

  lemma {:induction false} HistoryNext(times: seq<int>, s: int, n: nat, was: int, now: int, l: Limits, begins: bool,
                                       same: bool)
    requires History(times, s, n, was, l, begins) && was <= now && times != []
    requires if same then n < l.attempts else s + l.window <= now
    ensures History(times + [now], if same then s else now, if same then n + 1 else 1, now, l, begins)
  {
    hide LastWindow, Spaced, Capped;
    FailureSpaced(times, s, n, now, l, begins, same);
  }

  lemma HistoryLater(times: seq<int>, s: int, n: nat, was: int, now: int, l: Limits, begins: bool)
    requires History(times, s, n, was, l, begins) && was <= now
    ensures History(times, s, n, now, l, begins) && ValidLimits(l) && s <= was && 1 <= n
  {
    hide LastWindow, Spaced, Capped;
  }

  // One attempt keeps the track of an address it does not disturb.
  lemma {:induction false} TrackStep(times: seq<int>, s: int, n: nat, t: Table, e: Attempt, a: Address, was: int,
                                     l: Limits, begins: bool)
    returns (s': int, n': nat)
    requires History(times, s, n, was, l, begins) && Entry(t, a, s, n, was, l) && was <= e.now && !Disturbs(t, e, l, a)
    ensures History(times + (if Admits(t, e, l, a) then [e.now] else []), s', n', e.now, l, begins)
    ensures Entry(After(t, e, l), a, s', n', e.now, l)
  {
    hide After, Disturbs, Admits, VerdictOf, History;
    HistoryLater(times, s, n, was, e.now, l, begins);
    EntryAfter(t, e, l, a);
    s', n' := s, n;
    if !Admits(t, e, l, a) {
      assert times + [] == times;
    } else {
      var same := a in t && Elapsed(e.now, t[a].start) < l.window;
      if times == [] {
        HistoryFirst(s, n, was, e.now, l, begins, same);
        assert times + [e.now] == [e.now];
      } else {
        HistoryNext(times, s, n, was, e.now, l, begins, same);
      }
      if !same { s', n' := e.now, 1; } else { n' := n + 1; }
    }
  }

  lemma FirstFailure(s: int, n: nat, now: int, l: Limits, begins: bool)
    requires ValidLimits(l) && 1 <= n <= l.attempts && (n == 1 ==> s == now) && (begins ==> n == 1)
    ensures LastWindow([now], s, n, l, begins) && Spaced([now], 2 * l.attempts - 1, l) && Capped([now], l)
  {
  }

  // The times of the failures, with the window the table holds.
  ghost predicate Tracked(ts: seq<Table>, es: seq<Attempt>, l: Limits, a: Address, i: nat, j: nat, s: int, n: nat)
    requires |ts| == |es| + 1 && i < j <= |es|
  {
    && History(Admitted(ts, es, l, a, i, j), s, n, es[j - 1].now, l, a !in Live(ts[i], es[i].now, l))
    && Entry(ts[j], a, s, n, es[j - 1].now, l)
  }

  lemma {:induction false} TrackRun(ts: seq<Table>, es: seq<Attempt>, l: Limits, a: Address, i: nat, j: nat)
    returns (s: int, n: nat)
    requires Run(ts, es, l) && i < j <= |es| && Started(ts[i], es[i].now) && Undisturbed(ts, es, l, a, i, j)
    ensures Tracked(ts, es, l, a, i, j, s, n)
    decreases j
  {
    hide History, Disturbs, Admits, After;
    var begins := a !in Live(ts[i], es[i].now, l);
    if j == i + 1 {
      s, n := if a in ts[i] then ts[i][a].start else es[i].now - l.window, if a in ts[i] then ts[i][a].attempts else 1;
      NoHistory(s, n, es[i].now, l, begins);
      s, n := TrackStep([], s, n, ts[i], es[i], a, es[i].now, l, begins);
      assert Admitted(ts, es, l, a, i, i) == [];
    } else {
      s, n := TrackRun(ts, es, l, a, i, j - 1);
      s, n := TrackStep(Admitted(ts, es, l, a, i, j - 1), s, n, ts[j - 1], es[j - 1], a, es[j - 2].now, l, begins);
    }
  }

  lemma NoHistory(s: int, n: nat, now: int, l: Limits, begins: bool)
    requires ValidLimits(l) && 1 <= n && s <= now && (begins ==> s + l.window <= now)
    ensures History([], s, n, now, l, begins)
  {
  }

  /** While an address neither signs in nor is evicted, every half-open interval as long as
      the window holds fewer than twice the limit of its admitted failures. */
  lemma {:induction false} IntervalCap(ts: seq<Table>, es: seq<Attempt>, l: Limits, a: Address, i: nat, j: nat)
    requires Run(ts, es, l) && i <= j <= |es| && (i < |es| ==> Started(ts[i], es[i].now)) &&
             Undisturbed(ts, es, l, a, i, j)
    ensures Spaced(Admitted(ts, es, l, a, i, j), 2 * l.attempts - 1, l)
  {
    if i < j { var s, n := TrackRun(ts, es, l, a, i, j); }
  }

  /** From a failure that opens a window on, at most the limit is admitted until the window
      is over. */
  lemma {:induction false} WindowCap(ts: seq<Table>, es: seq<Attempt>, l: Limits, a: Address, i: nat, j: nat)
    requires Run(ts, es, l) && i < j <= |es| && Started(ts[i], es[i].now) && Undisturbed(ts, es, l, a, i, j)
    requires a !in Live(ts[i], es[i].now, l)
    ensures Capped(Admitted(ts, es, l, a, i, j), l)
  {
    var s, n := TrackRun(ts, es, l, a, i, j);
  }

  // ---- Why an address is turned away -----------------------------------------------------------

  // Counting starts at attempt `i`: there the run starts, or `a` has just lost its window.
  ghost predicate CountsFrom(ts: seq<Table>, es: seq<Attempt>, l: Limits, a: Address, i: nat, j: nat)
    requires |ts| == |es| + 1 && i <= j <= |es|
  {
    Undisturbed(ts, es, l, a, i, j) && (i == 0 || Disturbs(ts[i - 1], es[i - 1], l, a))
  }

  lemma {:induction false} LastDisturbed(ts: seq<Table>, es: seq<Attempt>, l: Limits, a: Address, j: nat)
    returns (i: nat)
    requires |ts| == |es| + 1 && j <= |es|
    ensures i <= j && CountsFrom(ts, es, l, a, i, j)
  {
    hide Disturbs;
    i := j;
    if j > 0 && !Disturbs(ts[j - 1], es[j - 1], l, a) { i := LastDisturbed(ts, es, l, a, j - 1); }
  }

  lemma DisturbedGone(t: Table, e: Attempt, l: Limits, a: Address)
    requires Fair(t, e, l) && Disturbs(t, e, l, a)
    ensures a !in After(t, e, l)
  {
  }

  // The window the table holds is made of the last failures of the address.
  lemma {:induction false} EntryIsHistory(ts: seq<Table>, es: seq<Attempt>, l: Limits, a: Address, j: nat)
    returns (i: nat)
    requires Run(ts, es, l) && ts[0] == map[] && j <= |es| && a in ts[j]
    requires forall k :: 0 <= k < |es| ==> Fair(ts[k], es[k], l)
    ensures i <= j && CountsFrom(ts, es, l, a, i, j) && 1 <= ts[j][a].attempts <= l.attempts
    ensures var times := Admitted(ts, es, l, a, i, j);
            |times| >= ts[j][a].attempts && times[|times| - ts[j][a].attempts] == ts[j][a].start
  {
    hide Disturbs, Admits, After, Fair;
    var t, e := ts[j - 1], es[j - 1];
    if Disturbs(t, e, l, a) { DisturbedGone(t, e, l, a); }
    EntryAfter(t, e, l, a);
    if a in t && Elapsed(e.now, t[a].start) < l.window {
      i := EntryIsHistory(ts, es, l, a, j - 1);
    } else {
      i := LastDisturbed(ts, es, l, a, j - 1);
    }
  }

  /** An address is turned away only if the whole limit of its failures was admitted within a
      window that still runs, all of them since it last signed in or was evicted. */
  lemma {:induction false} LimitedBecause(ts: seq<Table>, es: seq<Attempt>, l: Limits, j: nat)
    returns (i: nat)
    requires Run(ts, es, l) && ts[0] == map[] && j < |es| && VerdictOf(ts[j], es[j], l) == RateLimited
    requires forall k :: 0 <= k < |es| ==> Fair(ts[k], es[k], l)
    ensures i <= j && CountsFrom(ts, es, l, es[j].address, i, j)
    ensures var times := Admitted(ts, es, l, es[j].address, i, j);
            |times| >= l.attempts && es[j].now < times[|times| - l.attempts] + l.window
  {
    hide Disturbs, Admits, After, Fair;
    i := EntryIsHistory(ts, es, l, es[j].address, j);
  }

  // One failure, the rest of the limit just before the window is over, and the whole limit
  // as soon as it is.
  ghost function BurstTime(l: Limits, k: nat): (now: int) {
    if k == 0 then 0 else if k < l.attempts then l.window - 1 else l.window
  }

  ghost function BurstTable(l: Limits, k: nat): (t: Table) {
    if k == 0 then map[]
    else if k <= l.attempts then map[0 := Window(0, k)]
    else map[0 := Window(l.window, k - l.attempts)]
  }

  lemma BurstLive(l: Limits, k: nat)
    requires ValidLimits(l) && k < 2 * l.attempts
    ensures Live(BurstTable(l, k), BurstTime(l, k), l) == if k == l.attempts then map[] else BurstTable(l, k)
  {
  }

  lemma {:induction false} BurstStep(l: Limits, k: nat)
    requires ValidLimits(l) && k < 2 * l.attempts
    ensures var e := Attempt(0, BurstTime(l, k), false, 0);
            && BurstTable(l, k + 1) == After(BurstTable(l, k), e, l)
            && Admits(BurstTable(l, k), e, l, 0) && !Disturbs(BurstTable(l, k), e, l, 0)
  {
    hide Live, BurstTime;
    BurstLive(l, k);
    BurstOver(l);
  }

  lemma BurstOver(l: Limits)
    requires ValidLimits(l)
    ensures BurstTime(l, l.attempts) == l.window && BurstTime(l, 0) == 0
  {
  }

  lemma {:induction false} BurstAdmitted(ts: seq<Table>, es: seq<Attempt>, l: Limits, j: nat)
    requires |ts| == |es| + 1 && j <= |es| && forall k :: 0 <= k < |es| ==> Admits(ts[k], es[k], l, 0)
    ensures Admitted(ts, es, l, 0, 0, j) == seq(j, k requires 0 <= k < j => es[k].now)
  {
    if j > 0 { BurstAdmitted(ts, es, l, j - 1); }
  }

  /** The bound of IntervalCap is exact for every limit above one: one failure fewer than
      twice the limit does fit into an interval as long as the window. */
  lemma {:induction false} IntervalCapTight(l: Limits) returns (ts: seq<Table>, es: seq<Attempt>)
    requires ValidLimits(l) && l.attempts >= 2
    ensures Run(ts, es, l) && ts[0] == map[] && Undisturbed(ts, es, l, 0, 0, |es|)
    ensures !Spaced(Admitted(ts, es, l, 0, 0, |es|), 2 * l.attempts - 2, l)
  {
    hide After, Admits, Disturbs, BurstTable;
    ts := seq(2 * l.attempts + 1, k requires 0 <= k => BurstTable(l, k));
    es := seq(2 * l.attempts, k requires 0 <= k => Attempt(0, BurstTime(l, k), false, 0));
    forall k | 0 <= k < |es|
      ensures ts[k + 1] == After(ts[k], es[k], l) && Admits(ts[k], es[k], l, 0) && !Disturbs(ts[k], es[k], l, 0)
    {
      BurstStep(l, k);
    }
    BurstAdmitted(ts, es, l, |es|);
    var times := Admitted(ts, es, l, 0, 0, |es|);
    var q := 2 * l.attempts - 1;
    assert times[1] == l.window - 1 && times[q] == l.window;
    BurstStarts(l);
  }

  lemma BurstStarts(l: Limits)
    ensures BurstTable(l, 0) == map[]
  {
  }

  lemma RegisterKeeps(t: Table, a: Address, now: int, victim: Address)
    requires |t| <= MAX_ADDRESSES && Started(t, now) && (Evicts(t, a) ==> victim in t)
    ensures |Register(t, a, now, victim)| <= MAX_ADDRESSES && Started(Register(t, a, now, victim), now)
  {
    if a in t { assert t[a := Count(t[a])].Keys == t.Keys; }
    if Evicts(t, a) {
      assert (t - {victim}).Keys == t.Keys - {victim};
    }
  }

  lemma AfterKeeps(t: Table, e: Attempt, l: Limits)
    requires ValidLimits(l) && |t| <= MAX_ADDRESSES && Started(t, e.now) && Fair(t, e, l)
    ensures |After(t, e, l)| <= MAX_ADDRESSES && Started(After(t, e, l), e.now)
  {
    hide Register;
    var live := Live(t, e.now, l);
    FewerKeys(live, t);
    match VerdictOf(t, e, l)
    case RateLimited =>
    case Passed => FewerKeys(live - {e.address}, live);
    case Failed => RegisterKeeps(live, e.address, e.now, e.victim);
  }

  /** A table that starts within bounds stays within them, with windows that have started. */
  lemma {:induction false} RunKeepsTable(ts: seq<Table>, es: seq<Attempt>, l: Limits, i: nat)
    requires Run(ts, es, l) && i < |es| && |ts[0]| <= MAX_ADDRESSES && Started(ts[0], es[0].now)
    requires forall k :: 0 <= k < |es| ==> Fair(ts[k], es[k], l)
    ensures |ts[i]| <= MAX_ADDRESSES && Started(ts[i], es[i].now)
  {
    if i > 0 {
      RunKeepsTable(ts, es, l, i - 1);
      AfterKeeps(ts[i - 1], es[i - 1], l);
    }
  }
}

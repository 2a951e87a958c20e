// The failed-login limiter per source address: internal/api/auth.go. Times are nanoseconds read from the clock.
module LoginLimiter {
  import opened Options

  const LOGIN_WINDOW := 60_000_000_000
  const LOGIN_MAX := 10
  const LOGIN_LOCK := 30_000_000_000

  /** failCounter; a zero time is None. */
  datatype Counter = Counter(count: nat, resetAt: Option<int>, lockedAt: Option<int>)

  const FRESH := Counter(0, None, None)

  // ---- The two operations on one counter ----

  /** The counter at `now`: an elapsed window starts over. */
  function Refreshed(c: Counter, now: int): Counter {
    if c.resetAt.None? || now > c.resetAt.value then Counter(0, Some(now + LOGIN_WINDOW), None) else c
  }

  function Locked(now: int): Counter {
    Counter(0, Some(now + LOGIN_WINDOW), Some(now + LOGIN_LOCK))
  }

  predicate IsLocked(c: Counter, now: int) {
    c.lockedAt.Some? && now < c.lockedAt.value
  }

  function AllowFn(c: Counter, now: int): (Counter, bool) {
    var d := Refreshed(c, now);
    if IsLocked(d, now) then (d, false)
    else if d.count >= LOGIN_MAX then (Locked(now), false)
    else (d, true)
  }

  function FailFn(c: Counter, now: int): Counter {
    if c.count + 1 >= LOGIN_MAX then Locked(now) else c.(count := c.count + 1)
  }

  function EntryOf(fails: map<string, Counter>, ip: string): Counter {
    if ip in fails then fails[ip] else FRESH
  }

  class Auth {
    const enabled: bool
    var fails: map<string, Counter>

    constructor (enabled: bool)
      ensures this.enabled == enabled && fails == map[]
    {
      this.enabled, fails := enabled, map[];
    }

    /** allowLogin: whether the source may try; when the layer is disabled it always may. */
    method AllowLogin(ip: string, now: int) returns (ok: bool)
      modifies this
      ensures !enabled ==> ok && fails == old(fails)
      ensures enabled ==> var (c, allowed) := AllowFn(EntryOf(old(fails), ip), now);
                          ok == allowed && fails == old(fails)[ip := c]
    {
      if !enabled {
        return true;
      }
      if ip !in fails {
        fails := fails[ip := FRESH];
      }
      var c := fails[ip];
      if c.resetAt.None? || now > c.resetAt.value {
        c := c.(count := 0);
        c := c.(lockedAt := None);
        c := c.(resetAt := Some(now + LOGIN_WINDOW));
      }
      ok := true;
      if c.lockedAt.Some? && now < c.lockedAt.value {
        ok := false;
      } else if c.count >= LOGIN_MAX {
        c := c.(lockedAt := Some(now + LOGIN_LOCK));
        c := c.(count := 0);
        c := c.(resetAt := Some(now + LOGIN_WINDOW));
        ok := false;
      }
      fails := fails[ip := c];
    }

    /** recordFailure: only a source that asked before is counted. */
    method RecordFailure(ip: string, now: int)
      modifies this
      ensures fails == if ip in old(fails) then old(fails)[ip := FailFn(old(fails)[ip], now)] else old(fails)
    {
      if ip !in fails {
        return;
      }
      var c := fails[ip];
      c := c.(count := c.count + 1);
      if c.count >= LOGIN_MAX {
        c := c.(lockedAt := Some(now + LOGIN_LOCK));
        c := c.(count := 0);
        c := c.(resetAt := Some(now + LOGIN_WINDOW));
      }
      fails := fails[ip := c];
    }

    /** resetFailCount. */
    method ResetFailCount(ip: string)
      modifies this
      ensures fails == old(fails) - {ip}
    {
      fails := fails - {ip};
    }

    /** A login attempt with a wrong password, as one step; other sources are not touched. */
    method FailedAttempt(ip: string, now: int) returns (recorded: bool)
      modifies this
      ensures !enabled ==> recorded && fails == if ip in old(fails) then old(fails)[ip := FailFn(old(fails)[ip], now)]
                                                else old(fails)
      ensures enabled ==> var (c, counted) := AttemptFn(EntryOf(old(fails), ip), now);
                          recorded == counted && fails == old(fails)[ip := c]
    {
      recorded := AllowLogin(ip, now);
      if recorded {
        RecordFailure(ip, now);
      }
    }
  }

  function AttemptFn(c: Counter, now: int): (Counter, bool) {
    var (d, ok) := AllowFn(c, now);
    if ok then (FailFn(d, now), true) else (d, false)
  }

  // ---- Every interleaving ----

  /** A step of some request: asking, recording a failure after having been let in, or leaving without one. */
  datatype Event = Ask(at: int) | Record(at: int) | Leave(at: int)

  function Next(c: Counter, e: Event): Counter {
    match e
    case Ask(at) => AllowFn(c, at).0
    case Record(at) => FailFn(c, at)
    case Leave(_) => c
  }

  function After(c: Counter, events: seq<Event>): Counter
    decreases |events|
  {
    if events == [] then c else After(Next(c, events[0]), events[1..])
  }

  /** Below the maximum, and the window of a lock outlives the lock. */
  ghost predicate Sound(c: Counter) {
    && c.count < LOGIN_MAX
    && (c.lockedAt.Some? ==> c.resetAt.Some? && c.resetAt.value >= c.lockedAt.value + (LOGIN_WINDOW - LOGIN_LOCK))
  }

  /** Whatever requests do and in whatever order, the counter stays below the maximum. */
  lemma {:induction false} StaysSound(c: Counter, events: seq<Event>)
    requires Sound(c)
    ensures Sound(After(c, events))
    decreases |events|
  {
    if events != [] {
      StaysSound(Next(c, events[0]), events[1..]);
    }
  }

  /** A window reset never cuts a lock short: until its end nobody is let in, however many requests step in between. */
  lemma {:induction false} LockHolds(c: Counter, events: seq<Event>, since: int, at: int)
    requires Sound(c) && c.lockedAt.Some? && c.lockedAt.value >= since + LOGIN_LOCK > at
    requires forall i :: 0 <= i < |events| ==> since <= events[i].at <= at
    ensures !AllowFn(After(c, events), at).1
    decreases |events|
  {
    if events != [] {
      LockHolds(Next(c, events[0]), events[1..], since, at);
    }
  }

  /** The failure that reaches the maximum locks the source for the whole lock time. */
  lemma MaxFailureLocks(c: Counter, events: seq<Event>, now: int, at: int)
    requires Sound(c) && c.count == LOGIN_MAX - 1 && now <= at < now + LOGIN_LOCK
    requires forall i :: 0 <= i < |events| ==> now <= events[i].at <= at
    ensures !AllowFn(After(FailFn(c, now), events), at).1
  {
    LockHolds(FailFn(c, now), events, now, at);
  }

  // ---- Failed attempts in sequence ----

  ghost predicate Sorted(times: seq<int>) {
    forall i, j :: 0 <= i < j < |times| ==> times[i] <= times[j]
  }

  /** How many of the failed attempts at these times are recorded within [from, from + LOGIN_LOCK). */
  function RecordedIn(c: Counter, times: seq<int>, from: int): nat
    decreases |times|
  {
    if times == [] then 0
    else
      var (d, counted) := AttemptFn(c, times[0]);
      (if counted && from <= times[0] < from + LOGIN_LOCK then 1 else 0) + RecordedIn(d, times[1..], from)
  }

  /** `n` failures since `from` are accounted for: by the counter alone; by the counter and a window that ended
      meanwhile; or by a lock that holds until the interval is over. */
  ghost predicate Accounted(c: Counter, from: int, n: nat) {
    || n <= c.count
    || (c.resetAt.Some? && c.resetAt.value >= from + LOGIN_WINDOW && n <= LOGIN_MAX - 1 + c.count)
    || (IsLocked(c, from + LOGIN_LOCK - 1) && n <= 2 * LOGIN_MAX - 1)
  }

  lemma AccountedStep(c: Counter, from: int, n: nat, now: int)
    requires Sound(c) && Accounted(c, from, n) && from <= now < from + LOGIN_LOCK
    ensures var (d, counted) := AttemptFn(c, now);
            Sound(d) && Accounted(d, from, if counted then n + 1 else n)
  {
  }

  lemma {:induction false} NoneLater(c: Counter, times: seq<int>, from: int)
    requires forall i :: 0 <= i < |times| ==> times[i] >= from + LOGIN_LOCK
    ensures RecordedIn(c, times, from) == 0
    decreases |times|
  {
    if times != [] {
      NoneLater(AttemptFn(c, times[0]).0, times[1..], from);
    }
  }

  lemma {:induction false} BoundFrom(c: Counter, times: seq<int>, from: int, n: nat)
    requires Sound(c) && Sorted(times) && Accounted(c, from, n)
    requires times != [] && times[0] < from ==> n == 0
    ensures n + RecordedIn(c, times, from) <= 2 * LOGIN_MAX - 1
    decreases |times|
  {
    if times != [] {
      var (d, counted) := AttemptFn(c, times[0]);
      if times[0] < from {
        BoundFrom(d, times[1..], from, 0);
      } else if times[0] < from + LOGIN_LOCK {
        AccountedStep(c, from, n, times[0]);
        BoundFrom(d, times[1..], from, if counted then n + 1 else n);
      } else {
        NoneLater(c, times, from);
      }
    }
  }

  /** Without a successful login, any half-open interval of the lock time records fewer than twice the maximum. */
  lemma FailuresBounded(c: Counter, times: seq<int>, from: int)
    requires Sound(c) && Sorted(times)
    ensures RecordedIn(c, times, from) <= 2 * LOGIN_MAX - 1
  {
    BoundFrom(c, times, from, 0);
  }

  // ---- Overlapping requests ----

  ghost predicate SortedEvents(events: seq<Event>) {
    forall i, j :: 0 <= i < j < |events| ==> events[i].at <= events[j].at
  }

  /** Only requests that were let in record or leave, each once, and never more than `k` of them are under way; `o` are at
      the start. */
  ghost predicate AtMost(c: Counter, o: nat, k: nat, events: seq<Event>)
    decreases |events|
  {
    && o <= k
    && (events == [] ||
        match events[0]
        case Ask(at) =>
          var (d, ok) := AllowFn(c, at);
          AtMost(d, if ok then o + 1 else o, k, events[1..])
        case Record(at) => o >= 1 && AtMost(FailFn(c, at), o - 1, k, events[1..])
        case Leave(_) => o >= 1 && AtMost(c, o - 1, k, events[1..]))
  }

  predicate CountsIn(e: Event, from: int) {
    e.Record? && from <= e.at < from + LOGIN_LOCK
  }

  /** How many failures are recorded within [from, from + LOGIN_LOCK). */
  function RecordsIn(events: seq<Event>, from: int): nat {
    if events == [] then 0 else (if CountsIn(events[0], from) then 1 else 0) + RecordsIn(events[1..], from)
  }

  /** As Accounted, with `o` requests under way: behind a lock that outlasts the interval only those can still record. */
  ghost predicate OverlapAccounted(c: Counter, o: nat, k: nat, from: int, n: nat) {
    || n <= c.count
    || (c.resetAt.Some? && c.resetAt.value >= from + LOGIN_WINDOW && n <= LOGIN_MAX - 1 + c.count)
    || (IsLocked(c, from + LOGIN_LOCK - 1) && n + o <= 2 * LOGIN_MAX - 2 + k)
  }

  lemma OverlapAsk(c: Counter, o: nat, k: nat, from: int, n: nat, now: int)
    requires Sound(c) && OverlapAccounted(c, o, k, from, n) && from <= now < from + LOGIN_LOCK
    ensures var (d, ok) := AllowFn(c, now);
            Sound(d) && OverlapAccounted(d, if ok then o + 1 else o, k, from, n)
  {
  }

  lemma OverlapRecord(c: Counter, o: nat, k: nat, from: int, n: nat, now: int)
    requires Sound(c) && OverlapAccounted(c, o, k, from, n) && from <= now < from + LOGIN_LOCK && 1 <= o <= k
    ensures Sound(FailFn(c, now)) && OverlapAccounted(FailFn(c, now), o - 1, k, from, n + 1)
  {
  }

  lemma {:induction false} NoRecordLater(events: seq<Event>, from: int)
    requires forall i :: 0 <= i < |events| ==> events[i].at >= from + LOGIN_LOCK
    ensures RecordsIn(events, from) == 0
  {
    if events != [] {
      NoRecordLater(events[1..], from);
    }
  }

  lemma {:induction false} OverlapFrom(c: Counter, o: nat, k: nat, events: seq<Event>, from: int, n: nat)
    requires Sound(c) && SortedEvents(events) && AtMost(c, o, k, events) && k >= 1
    requires OverlapAccounted(c, o, k, from, n)
    requires events != [] && events[0].at < from ==> n == 0
    ensures n + RecordsIn(events, from) <= 2 * LOGIN_MAX - 2 + k
    decreases |events|
  {
    if events != [] {
      hide AllowFn, FailFn, OverlapAccounted;
      var e, rest := events[0], events[1..];
      var d := Next(c, e);
      var o' := if e.Ask? then (if AllowFn(c, e.at).1 then o + 1 else o) else o - 1;
      if e.at < from {
        StaysSound(c, [e]);
        assert [e][1..] == [];
        NothingYet(d, o', k, from);
        OverlapFrom(d, o', k, rest, from, 0);
      } else if e.at < from + LOGIN_LOCK {
        match e {
          case Ask(at) => OverlapAsk(c, o, k, from, n, at);
          case Record(at) => OverlapRecord(c, o, k, from, n, at);
          case Leave(_) => OverlapLeave(c, o, k, from, n);
        }
        OverlapFrom(d, o', k, rest, from, if e.Record? then n + 1 else n);
      } else {
        NoRecordLater(events, from);
        InBounds(c, o, k, from, n);
      }
    } else {
      InBounds(c, o, k, from, n);
    }
  }

  lemma NothingYet(c: Counter, o: nat, k: nat, from: int)
    ensures OverlapAccounted(c, o, k, from, 0)
  {
  }

  lemma OverlapLeave(c: Counter, o: nat, k: nat, from: int, n: nat)
    requires OverlapAccounted(c, o, k, from, n) && o >= 1
    ensures OverlapAccounted(c, o - 1, k, from, n)
  {
  }

  lemma InBounds(c: Counter, o: nat, k: nat, from: int, n: nat)
    requires Sound(c) && OverlapAccounted(c, o, k, from, n) && k >= 1
    ensures n <= 2 * LOGIN_MAX - 2 + k
  {
  }

  /** With at most `k` requests of a source under way at a time and none succeeding, any half-open interval of the lock time
      records at most 2 * LOGIN_MAX - 2 + k failures. */
  lemma OverlappingBounded(c: Counter, o: nat, k: nat, events: seq<Event>, from: int)
    requires Sound(c) && SortedEvents(events) && AtMost(c, o, k, events) && k >= 1
    ensures RecordsIn(events, from) <= 2 * LOGIN_MAX - 2 + k
  {
    NothingYet(c, o, k, from);
    OverlapFrom(c, o, k, events, from, 0);
  }

  // ---- The bound is reached ----

  function Times(n: nat, at: int): seq<int> {
    seq(n, _ => at)
  }

  /** A burst of `n` failures at one moment, short of the maximum or just reaching it. */
  lemma {:induction false} Burst(c: Counter, n: nat, at: int, rest: seq<int>, from: int)
    requires c.count + n <= LOGIN_MAX && c.count < LOGIN_MAX && !IsLocked(c, at)
    requires c.resetAt.Some? && at <= c.resetAt.value
    ensures RecordedIn(c, Times(n, at) + rest, from)
            == (if from <= at < from + LOGIN_LOCK then n else 0)
               + RecordedIn(if c.count + n == LOGIN_MAX then Locked(at) else c.(count := c.count + n), rest, from)
    decreases n
  {
    var times := Times(n, at) + rest;
    if n == 0 {
      assert times == rest;
    } else {
      assert times[0] == at && times[1..] == Times(n - 1, at) + rest;
      if c.count + 1 < LOGIN_MAX {
        Burst(c.(count := c.count + 1), n - 1, at, rest, from);
      } else {
        assert Times(n - 1, at) + rest == rest;
      }
    }
  }

  /** Ten failures at once, nine just before the window of that lock ends and ten just after: nineteen in 30 s. */
  lemma BoundReached() returns (times: seq<int>, from: int)
    ensures Sorted(times) && RecordedIn(FRESH, times, from) == 2 * LOGIN_MAX - 1
  {
    hide RecordedIn;
    from := 59_000_000_000;
    var later := 61_000_000_000;
    var tail3 := Times(10, later) + [];
    var tail2 := Times(9, from) + tail3;
    times := Times(10, 0) + tail2;
    FirstRefreshes(FRESH, times, from);
    Burst(Refreshed(FRESH, 0), 10, 0, tail2, from);
    var c := Locked(0);
    Burst(c, 9, from, tail3, from);
    FirstRefreshes(c.(count := 9), tail3, from);
    Burst(Refreshed(c, later), 10, later, [], from);
    NoneLater(Locked(later), [], from);
  }

  /** The first attempt refreshes the counter either way. */
  lemma FirstRefreshes(c: Counter, times: seq<int>, from: int)
    requires times != []
    ensures RecordedIn(c, times, from) == RecordedIn(Refreshed(c, times[0]), times, from)
  {
  }

  // ---- The overlapping bound is reached ----

  function Asks(n: nat, at: int): seq<Event> {
    seq(n, _ => Ask(at))
  }

  function Records(n: nat, at: int): seq<Event> {
    seq(n, _ => Record(at))
  }

  /** `n` requests that ask and record one after another. */
  function Pairs(n: nat, at: int): seq<Event> {
    if n == 0 then [] else [Ask(at), Record(at)] + Pairs(n - 1, at)
  }

  /** As Burst, request by request. */
  lemma {:induction false} PairsAtMost(c: Counter, n: nat, at: int, k: nat, rest: seq<Event>, from: int)
    requires c.count + n <= LOGIN_MAX && c.count < LOGIN_MAX && !IsLocked(c, at) && k >= 1
    requires c.resetAt.Some? && at <= c.resetAt.value
    requires AtMost(if c.count + n == LOGIN_MAX then Locked(at) else c.(count := c.count + n), 0, k, rest)
    ensures AtMost(c, 0, k, Pairs(n, at) + rest)
    ensures RecordsIn(Pairs(n, at) + rest, from)
            == (if from <= at < from + LOGIN_LOCK then n else 0) + RecordsIn(rest, from)
    decreases n
  {
    var events := Pairs(n, at) + rest;
    if n == 0 {
      assert events == rest;
    } else {
      var more := Pairs(n - 1, at) + rest;
      assert events == [Ask(at)] + ([Record(at)] + more);
      assert events[1..] == [Record(at)] + more && events[1..][1..] == more;
      if c.count + 1 < LOGIN_MAX {
        PairsAtMost(c.(count := c.count + 1), n - 1, at, k, rest, from);
      } else {
        assert more == rest;
      }
    }
  }

  lemma {:induction false} AsksAtMost(c: Counter, o: nat, n: nat, at: int, k: nat, rest: seq<Event>, from: int)
    requires c.count < LOGIN_MAX && !IsLocked(c, at) && c.resetAt.Some? && at <= c.resetAt.value
    requires o + n <= k && AtMost(c, o + n, k, rest)
    ensures AtMost(c, o, k, Asks(n, at) + rest) && RecordsIn(Asks(n, at) + rest, from) == RecordsIn(rest, from)
    decreases n
  {
    var events := Asks(n, at) + rest;
    if n == 0 {
      assert events == rest;
    } else {
      assert events[0] == Ask(at) && events[1..] == Asks(n - 1, at) + rest;
      AsksAtMost(c, o + 1, n - 1, at, k, rest, from);
    }
  }

  lemma {:induction false} RecordsAtMost(c: Counter, n: nat, at: int, k: nat, from: int)
    requires n <= k && from <= at < from + LOGIN_LOCK
    ensures AtMost(c, n, k, Records(n, at)) && RecordsIn(Records(n, at), from) == n
    decreases n
  {
    if n > 0 {
      assert Records(n, at)[0] == Record(at) && Records(n, at)[1..] == Records(n - 1, at);
      RecordsAtMost(FailFn(c, at), n - 1, at, k, from);
    }
  }

  /** In order, and none before `at`. */
  ghost predicate SortedFrom(events: seq<Event>, at: int) {
    SortedEvents(events) && forall i :: 0 <= i < |events| ==> events[i].at >= at
  }

  lemma SortedFront(front: seq<Event>, rest: seq<Event>, at: int, later: int)
    requires forall i :: 0 <= i < |front| ==> front[i].at == at
    requires SortedFrom(rest, later) && at <= later
    ensures SortedFrom(front + rest, at)
  {
  }

  lemma {:induction false} PairsAt(n: nat, at: int)
    ensures forall i :: 0 <= i < |Pairs(n, at)| ==> Pairs(n, at)[i].at == at
  {
    if n > 0 {
      PairsAt(n - 1, at);
    }
  }

  /** As BoundReached, with the last failure of the burst recorded by `k` requests let in together. */
  lemma OverlappingReached(k: nat) returns (events: seq<Event>, from: int)
    requires k >= 1
    ensures SortedEvents(events) && AtMost(FRESH, 0, k, events) && RecordsIn(events, from) == 2 * LOGIN_MAX - 2 + k
  {
    hide RecordsIn, AtMost, SortedFrom;
    from := 59_000_000_000;
    var later := 61_000_000_000;
    var c := Locked(0).(count := 9);
    var d := Refreshed(c, later);
    var records := Records(k, later);
    var asks := Asks(k, later) + records;
    var third := Pairs(9, later) + asks;
    var second := Pairs(9, from) + third;
    events := Pairs(10, 0) + second;
    RecordsAtMost(d.(count := 9), k, later, k, from);
    AsksAtMost(d.(count := 9), 0, k, later, k, records, from);
    PairsAtMost(d, 9, later, k, asks, from);
    AskRefreshes(c, third, k, later);
    PairsAtMost(Locked(0), 9, from, k, third, from);
    PairsAtMost(Refreshed(FRESH, 0), 10, 0, k, second, from);
    AskRefreshes(FRESH, events, k, 0);
    EventsSorted(k);
  }

  lemma EventsSorted(k: nat)
    ensures SortedEvents(Pairs(10, 0) + (Pairs(9, 59_000_000_000) + (Pairs(9, 61_000_000_000)
                         + (Asks(k, 61_000_000_000) + Records(k, 61_000_000_000)))))
  {
    hide Pairs, Asks, Records;
    var from, later := 59_000_000_000, 61_000_000_000;
    BlocksAt(k, later);
    SortedFront(Asks(k, later), Records(k, later), later, later);
    PairsAt(9, later);
    SortedFront(Pairs(9, later), Asks(k, later) + Records(k, later), later, later);
    PairsAt(9, from);
    SortedFront(Pairs(9, from), Pairs(9, later) + (Asks(k, later) + Records(k, later)), from, later);
    PairsAt(10, 0);
    SortedFront(Pairs(10, 0), Pairs(9, from) + (Pairs(9, later) + (Asks(k, later) + Records(k, later))), 0, from);
  }

  lemma BlocksAt(k: nat, at: int)
    ensures SortedFrom(Records(k, at), at) && |Asks(k, at)| == k
    ensures forall i :: 0 <= i < k ==> Asks(k, at)[i].at == at
  {
  }

  /** The first request refreshes the counter either way. */
  lemma AskRefreshes(c: Counter, events: seq<Event>, k: nat, at: int)
    requires events != [] && events[0] == Ask(at)
    ensures AtMost(c, 0, k, events) == AtMost(Refreshed(c, at), 0, k, events)
  {
  }
}

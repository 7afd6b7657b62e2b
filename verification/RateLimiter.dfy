/** The in-memory rate limiter: a bounded queue of acceptance times per key, and a sweeper that forgets idle
    keys. Reference: a sliding window over the full history of acceptances. */
module RateLimiter {
  import opened Seqs

  datatype Limit = Limit(max: int, duration: int)

  type Store = map<string, seq<int>>

  predicate NoEmptyQueue(store: Store) {
    forall k :: k in store ==> store[k] != []
  }

  // ---------------------------------------------------------------- the limiter

  datatype Answer = Answer(store: Store, accepted: bool)

  /** One request: the store it leaves and the decision. */
  function Serve(store: Store, key: string, limit: Limit, now: int): (a: Answer)
    requires NoEmptyQueue(store)
    ensures NoEmptyQueue(a.store)
  {
    if key !in store then Answer(store[key := [now]], true) else
      var queue := store[key];
      if |queue| < limit.max then Answer(store[key := queue + [now]], true)
      else if now - queue[0] >= limit.duration then Answer(store[key := queue[1..] + [now]], true)
      else Answer(store, false)
  }

  predicate Stale(queue: seq<int>, expiration: int, now: int) {
    queue == [] || now - queue[|queue| - 1] > expiration
  }

  /** One pass of the sweeper. */
  function Swept(store: Store, expiration: int, now: int): Store {
    map k | k in store && !Stale(store[k], expiration, now) :: store[k]
  }

  class Limiter {
    var store: Store
    const expiration: int

    constructor (expiration: int)
      ensures store == map[] && this.expiration == expiration
    {
      store := map[];
      this.expiration := expiration;
    }

    /** Go allocates the queue with capacity `max`, which rules a negative `max` out. */
    method Request(key: string, max: int, duration: int, now: int) returns (accepted: bool)
      requires NoEmptyQueue(store) && max >= 0
      modifies this`store
      ensures Answer(store, accepted) == Serve(old(store), key, Limit(max, duration), now)
    {
      if key in store {
        var queue := store[key];
        if |queue| < max {
          store := store[key := queue + [now]];
          return true;
        } else if now - queue[0] >= duration {
          queue := queue[1..];
          store := store[key := queue + [now]];
          return true;
        } else {
          return false;
        }
      }
      store := store[key := [now]];
      return true;
    }

    method ClearExpired(now: int)
      modifies this`store
      ensures store == Swept(old(store), expiration, now)
    {
      var todo := store.Keys;
      while todo != {}
        invariant todo <= old(store).Keys
        invariant store == map k | k in old(store) && (k in todo || !Stale(old(store)[k], expiration, now))
                          :: old(store)[k]
        decreases todo
      {
        var k := Pick(todo);
        var queue := store[k];
        if |queue| == 0 || now - queue[|queue| - 1] > expiration {
          store := store - {k};
        }
        todo := todo - {k};
      }
    }
  }

  // ---------------------------------------------------------------- the reference

  /** How many of the recorded acceptances are less than `duration` old. */
  function Young(history: seq<int>, duration: int, now: int): nat {
    if history == [] then 0 else
      Young(history[..|history| - 1], duration, now) + if now - history[|history| - 1] < duration then 1 else 0
  }

  /** A limit of zero admits as much as a limit of one, because the first request of a key is not counted. */
  function Ceiling(limit: Limit): nat {
    if limit.max > 1 then limit.max else 1
  }

  predicate Admits(history: seq<int>, limit: Limit, now: int) {
    Young(history, limit.duration, now) < Ceiling(limit)
  }

  // ---------------------------------------------------------------- runs

  datatype Event = Ask(key: string, now: int) | Sweep(now: int)

  type Limits = string -> Limit

  ghost predicate ClockRuns(events: seq<Event>) {
    forall i, j :: 0 <= i < j < |events| ==> events[i].now <= events[j].now
  }

  function StoreAfter(events: seq<Event>, limits: Limits, expiration: int): (s: Store)
    ensures NoEmptyQueue(s)
  {
    if events == [] then map[] else
      var s := StoreAfter(events[..|events| - 1], limits, expiration);
      match events[|events| - 1]
      case Ask(key, now) => Serve(s, key, limits(key), now).store
      case Sweep(now) => Swept(s, expiration, now)
  }

  /** The acceptances of a key when the full history decides. */
  function History(events: seq<Event>, limits: Limits, key: string): seq<int> {
    if events == [] then [] else
      var h := History(events[..|events| - 1], limits, key);
      match events[|events| - 1]
      case Ask(k, now) => if k == key && Admits(h, limits(key), now) then h + [now] else h
      case Sweep(_) => h
  }

  /** After `events`, the limiter and the reference decide alike on one more request. */
  ghost predicate DecidesAlike(events: seq<Event>, limits: Limits, expiration: int, key: string, now: int) {
    Serve(StoreAfter(events, limits, expiration), key, limits(key), now).accepted <==>
    Admits(History(events, limits, key), limits(key), now)
  }

  // ---------------------------------------------------------------- counting in a sorted history

  predicate Sorted(h: seq<int>) {
    forall i, j :: 0 <= i < j < |h| ==> h[i] <= h[j]
  }

  lemma {:induction false} NoneYoung(h: seq<int>, duration: int, now: int)
    requires forall i :: 0 <= i < |h| ==> now - h[i] >= duration
    ensures Young(h, duration, now) == 0
  {
    if h != [] {
      NoneYoung(h[..|h| - 1], duration, now);
    }
  }

  /** In a sorted history, `m` acceptances are young exactly when the `m`-th from the end is. */
  lemma {:induction false} YoungAtLeast(h: seq<int>, duration: int, now: int, m: nat)
    requires Sorted(h) && m >= 1
    ensures Young(h, duration, now) >= m <==> |h| >= m && now - h[|h| - m] < duration
  {
    if h != [] {
      var last := |h| - 1;
      if now - h[last] < duration {
        if m > 1 {
          YoungAtLeast(h[..last], duration, now, m - 1);
        }
      } else {
        NoneYoung(h, duration, now);
      }
    }
  }

  // ---------------------------------------------------------------- the coupling invariant

  /** The queue is the end of the history, and whatever it lacks of `m` entries is too old to count. */
  ghost predicate Coupled(store: Store, key: string, h: seq<int>, limit: Limit, now: int) {
    && Sorted(h) && (forall i :: 0 <= i < |h| ==> h[i] <= now)
    && if key in store then
         var q := store[key];
         && 0 < |q| <= Ceiling(limit) && |q| <= |h| && q == h[|h| - |q|..]
         && (|q| < Ceiling(limit) ==> forall i :: 0 <= i < |h| - |q| ==> now - h[i] >= limit.duration)
       else forall i :: 0 <= i < |h| ==> now - h[i] >= limit.duration
  }

  lemma CoupledDecides(store: Store, key: string, h: seq<int>, limit: Limit, before: int, now: int)
    requires NoEmptyQueue(store) && limit.max >= 0 && before <= now && Coupled(store, key, h, limit, before)
    ensures Serve(store, key, limit, now).accepted <==> Admits(h, limit, now)
  {
    var m := Ceiling(limit);
    YoungAtLeast(h, limit.duration, now, m);
    if key in store {
      var q := store[key];
      assert q[0] == h[|h| - |q|];
    }
  }

  lemma ServeKeepsCoupled(store: Store, key: string, h: seq<int>, limit: Limit, before: int, now: int)
    requires NoEmptyQueue(store) && limit.max >= 0 && before <= now && Coupled(store, key, h, limit, before)
    ensures var h' := if Admits(h, limit, now) then h + [now] else h;
            Coupled(Serve(store, key, limit, now).store, key, h', limit, now)
  {
    hide Admits;
    CoupledDecides(store, key, h, limit, before, now);
  }

  lemma OtherKeyKeepsCoupled(store: Store, other: string, key: string, h: seq<int>, limits: Limits,
                             before: int, now: int)
    requires NoEmptyQueue(store) && before <= now && other != key && Coupled(store, key, h, limits(key), before)
    ensures Coupled(Serve(store, other, limits(other), now).store, key, h, limits(key), now)
  {
  }

  /** Forgetting an idle key is harmless as long as the limit looks back at most one second further than
      the sweeper. */
  lemma SweepKeepsCoupled(store: Store, key: string, h: seq<int>, limit: Limit, expiration: int, before: int, now: int)
    requires before <= now && limit.duration <= expiration + 1 && Coupled(store, key, h, limit, before)
    ensures Coupled(Swept(store, expiration, now), key, h, limit, now)
  {
  }

  ghost predicate LooksBackEnough(limits: Limits, expiration: int) {
    forall key :: limits(key).duration <= expiration + 1
  }

  ghost predicate Allocatable(limits: Limits) {
    forall key :: limits(key).max >= 0
  }

  lemma {:induction false} RunCoupled(events: seq<Event>, limits: Limits, expiration: int, key: string, now: int)
    requires ClockRuns(events) && Allocatable(limits) && LooksBackEnough(limits, expiration)
    requires forall i :: 0 <= i < |events| ==> events[i].now <= now
    ensures Coupled(StoreAfter(events, limits, expiration), key, History(events, limits, key), limits(key), now)
  {
    hide Admits, Serve, Swept, Coupled;
    if events == [] {
      NothingCoupled(key, limits(key), now);
    } else {
      var last := |events| - 1;
      var prefix, e := events[..last], events[last];
      var h := History(prefix, limits, key);
      RunCoupled(prefix, limits, expiration, key, e.now);
      var s := StoreAfter(prefix, limits, expiration);
      match e
      case Ask(k, t) =>
        if k == key {
          ServeKeepsCoupled(s, key, h, limits(key), t, t);
        } else {
          OtherKeyKeepsCoupled(s, k, key, h, limits, t, t);
        }
        Later(StoreAfter(events, limits, expiration), key, History(events, limits, key), limits(key), t, now);
      case Sweep(t) =>
        SweepKeepsCoupled(s, key, h, limits(key), expiration, t, t);
        Later(StoreAfter(events, limits, expiration), key, History(events, limits, key), limits(key), t, now);
    }
  }

  lemma NothingCoupled(key: string, limit: Limit, now: int)
    ensures Coupled(map[], key, [], limit, now)
  {
  }

  lemma Later(store: Store, key: string, h: seq<int>, limit: Limit, before: int, now: int)
    requires before <= now && Coupled(store, key, h, limit, before)
    ensures Coupled(store, key, h, limit, now)
  {
  }

  /** Main result, one way: with a clock that never goes back, every request is decided as the full history
      would decide it. */
  lemma LimiterRefinesWindow(events: seq<Event>, limits: Limits, expiration: int, key: string, now: int)
    requires ClockRuns(events) && Allocatable(limits) && LooksBackEnough(limits, expiration)
    requires forall i :: 0 <= i < |events| ==> events[i].now <= now
    ensures DecidesAlike(events, limits, expiration, key, now)
  {
    hide Admits, Serve;
    RunCoupled(events, limits, expiration, key, now);
    CoupledDecides(StoreAfter(events, limits, expiration), key, History(events, limits, key), limits(key), now, now);
  }

  // ---------------------------------------------------------------- the sweeper's reach

  /** `n` requests for a key in the first second. */
  function Burst(key: string, n: nat): (r: seq<Event>)
    ensures |r| == n && forall i :: 0 <= i < n ==> r[i] == Ask(key, 0)
  {
    seq(n, _ => Ask(key, 0))
  }

  function Zeros(n: nat): (r: seq<int>)
    ensures |r| == n && forall i :: 0 <= i < n ==> r[i] == 0
  {
    seq(n, _ => 0)
  }

  lemma {:induction false} BurstFills(key: string, n: nat, limits: Limits, expiration: int)
    requires 1 <= n <= Ceiling(limits(key)) && limits(key).duration > 0
    ensures StoreAfter(Burst(key, n), limits, expiration) == map[key := Zeros(n)]
    ensures History(Burst(key, n), limits, key) == Zeros(n)
  {
    hide Young;
    assert Burst(key, n)[..n - 1] == Burst(key, n - 1);
    if n > 1 {
      BurstFills(key, n - 1, limits, expiration);
      YoungAtLeast(Zeros(n - 1), limits(key).duration, 0, Ceiling(limits(key)));
      assert Zeros(n) == Zeros(n - 1) + [0];
    } else {
      assert Burst(key, 0) == [] && Zeros(1) == [0];
      YoungAtLeast([], limits(key).duration, 0, 1);
    }
  }

  /** Past the sweeper's reach the limiter admits one request too many. */
  lemma SweptBurstDecidesDifferently(limits: Limits, expiration: int, key: string)
    returns (events: seq<Event>, now: int)
    requires expiration > 0 && Allocatable(limits) && limits(key).duration > expiration + 1
    ensures ClockRuns(events) && (forall i :: 0 <= i < |events| ==> events[i].now <= now)
    ensures !DecidesAlike(events, limits, expiration, key, now)
  {
    var n := Ceiling(limits(key));
    now := expiration + 1;
    events := Burst(key, n) + [Sweep(now)];
    BurstFills(key, n, limits, expiration);
    assert events[..|events| - 1] == Burst(key, n);
    YoungAtLeast(Zeros(n), limits(key).duration, now, n);
    assert Stale(Zeros(n), expiration, now);
    assert key !in Swept(map[key := Zeros(n)], expiration, now);
  }

  ghost predicate AlwaysDecidesAlike(limits: Limits, expiration: int) {
    forall events: seq<Event>, key, now ::
      ClockRuns(events) && (forall i :: 0 <= i < |events| ==> events[i].now <= now) ==>
        DecidesAlike(events, limits, expiration, key, now)
  }

  /** Main result, both ways: the limiter decides every run as the full history would, exactly when no limit
      looks back more than one second further than the sweeper. */
  lemma LimiterRefinesWindowIff(limits: Limits, expiration: int)
    requires expiration > 0 && Allocatable(limits)
    ensures AlwaysDecidesAlike(limits, expiration) <==> LooksBackEnough(limits, expiration)
  {
    hide DecidesAlike;
    if LooksBackEnough(limits, expiration) {
      forall events: seq<Event>, key, now
        | ClockRuns(events) && (forall i :: 0 <= i < |events| ==> events[i].now <= now)
        ensures DecidesAlike(events, limits, expiration, key, now)
      {
        LimiterRefinesWindow(events, limits, expiration, key, now);
      }
    } else {
      var key :| limits(key).duration > expiration + 1;
      var events, now := SweptBurstDecidesDifferently(limits, expiration, key);
    }
  }

  // ---------------------------------------------------------------- how many acceptances fit in a window

  /** The times at which the limiter itself accepted a key. */
  function Accepted(events: seq<Event>, limits: Limits, expiration: int, key: string): seq<int> {
    if events == [] then [] else
      var prefix := events[..|events| - 1];
      var a := Accepted(prefix, limits, expiration, key);
      match events[|events| - 1]
      case Ask(k, now) =>
        if k == key && Serve(StoreAfter(prefix, limits, expiration), key, limits(key), now).accepted
          then a + [now] else a
      case Sweep(_) => a
  }

  lemma {:induction false} AcceptedIsHistory(events: seq<Event>, limits: Limits, expiration: int, key: string)
    requires ClockRuns(events) && Allocatable(limits) && LooksBackEnough(limits, expiration)
    ensures Accepted(events, limits, expiration, key) == History(events, limits, key)
  {
    hide Admits, Serve;
    if events != [] {
      var last := |events| - 1;
      AcceptedIsHistory(events[..last], limits, expiration, key);
      if events[last].Ask? {
        LimiterRefinesWindow(events[..last], limits, expiration, key, events[last].now);
      }
    }
  }

  /** Any two acceptances `m` apart in the history are a full duration apart in time. */
  ghost predicate Spaced(h: seq<int>, m: nat, duration: int) {
    forall i :: 0 <= i < |h| - m ==> h[i + m] - h[i] >= duration
  }

  ghost predicate Orderly(h: seq<int>, limit: Limit, now: int) {
    Sorted(h) && (forall i :: 0 <= i < |h| ==> h[i] <= now) && Spaced(h, Ceiling(limit), limit.duration)
  }

  lemma AdmittedStaysOrderly(h: seq<int>, limit: Limit, now: int)
    requires Orderly(h, limit, now) && Admits(h, limit, now)
    ensures Orderly(h + [now], limit, now)
  {
    hide Young;
    var m := Ceiling(limit);
    YoungAtLeast(h, limit.duration, now, m);
    var h' := h + [now];
    forall i | 0 <= i < |h'| - m ensures h'[i + m] - h'[i] >= limit.duration {
      if i + m == |h| {
        assert h'[i] == h[|h| - m];
      } else {
        assert h[i + m] - h[i] >= limit.duration;
      }
    }
  }

  lemma LaterOrderly(h: seq<int>, limit: Limit, before: int, now: int)
    requires Orderly(h, limit, before) && before <= now
    ensures Orderly(h, limit, now)
  {
  }

  lemma NothingOrderly(limit: Limit, now: int)
    ensures Orderly([], limit, now)
  {
  }

  lemma {:induction false} HistorySpaced(events: seq<Event>, limits: Limits, key: string, now: int)
    requires ClockRuns(events) && forall i :: 0 <= i < |events| ==> events[i].now <= now
    ensures Orderly(History(events, limits, key), limits(key), now)
  {
    hide Orderly, Admits;
    if events == [] {
      NothingOrderly(limits(key), now);
    } else {
      var last := |events| - 1;
      var t := events[last].now;
      var h := History(events[..last], limits, key);
      HistorySpaced(events[..last], limits, key, t);
      if Admits(h, limits(key), t) {
        AdmittedStaysOrderly(h, limits(key), t);
      }
      LaterOrderly(History(events, limits, key), limits(key), t, now);
    }
  }

  /** How many entries fall into the half-open window from `start`. */
  function InWindow(h: seq<int>, start: int, duration: int): nat {
    if h == [] then 0 else
      InWindow(h[..|h| - 1], start, duration) + if start <= h[|h| - 1] < start + duration then 1 else 0
  }

  lemma {:induction false} InWindowGrowth(h: seq<int>, start: int, duration: int, m: nat)
    requires m <= |h|
    ensures InWindow(h, start, duration) <= InWindow(h[..|h| - m], start, duration) + m
  {
    if m > 0 {
      InWindowGrowth(h[..|h| - 1], start, duration, m - 1);
      assert h[..|h| - 1][..|h| - m] == h[..|h| - m];
    } else {
      assert h[..|h|] == h;
    }
  }

  lemma {:induction false} BeforeWindow(h: seq<int>, start: int, duration: int)
    requires forall i :: 0 <= i < |h| ==> h[i] < start
    ensures InWindow(h, start, duration) == 0
  {
    if h != [] {
      BeforeWindow(h[..|h| - 1], start, duration);
    }
  }

  lemma {:induction false} SpacedFitsWindow(h: seq<int>, start: int, duration: int, m: nat)
    requires Sorted(h) && Spaced(h, m, duration)
    ensures InWindow(h, start, duration) <= m
  {
    if |h| <= m {
      InWindowGrowth(h, start, duration, |h|);
    } else if h[|h| - 1] < start + duration {
      var early := h[..|h| - m];
      assert h[|h| - 1 - m + m] - h[|h| - 1 - m] >= duration;
      assert forall i :: 0 <= i < |early| ==> early[i] <= h[|h| - 1 - m];
      BeforeWindow(early, start, duration);
      InWindowGrowth(h, start, duration, m);
    } else {
      SpacedFitsWindow(h[..|h| - 1], start, duration, m);
    }
  }

  /** No window of the limit's length ever holds more acceptances than the limit allows. */
  lemma NoWindowOverfull(events: seq<Event>, limits: Limits, expiration: int, key: string, start: int)
    requires ClockRuns(events) && Allocatable(limits) && LooksBackEnough(limits, expiration)
    ensures InWindow(Accepted(events, limits, expiration, key), start, limits(key).duration) <= Ceiling(limits(key))
  {
    hide Admits, Serve, Accepted;
    AcceptedIsHistory(events, limits, expiration, key);
    HistorySpaced(events, limits, key, if events == [] then 0 else events[|events| - 1].now);
    SpacedFitsWindow(History(events, limits, key), start, limits(key).duration, Ceiling(limits(key)));
  }
}

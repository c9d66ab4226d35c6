/** The in-memory rate limiter: per-key timestamp queues and a background sweeper,
    against the plain reading "admit when fewer than max requests were admitted in the
    last duration seconds". Times are whole seconds. */
module RateLimiter {

  type Store = map<string, seq<int>>

  /** Per-key limits, and the sweeper's expiration in seconds if a sweeper was started. */
  datatype Config = Config(max: string -> int, duration: string -> int, sweeper: bool, expiration: nat)

  // ----- The limiter -----

  predicate Stale(queue: seq<int>, expiration: int, now: int) {
    |queue| == 0 || now - queue[|queue| - 1] > expiration
  }

  function Swept(store: Store, expiration: int, now: int): Store {
    map key | key in store && !Stale(store[key], expiration, now) :: store[key]
  }

  /** The code indexes queue[0] of a full queue; queues in the store are never empty. */
  predicate Filled(store: Store) { forall key | key in store :: |store[key]| > 0 }

  /** A call returns an answer, or panics: a queue cannot be made with a negative capacity. */
  datatype Reply = Answer(ok: bool) | Panic

  predicate Admits(store: Store, key: string, max: int, duration: int, now: int)
    requires Filled(store)
  {
    if key !in store then max >= 0 else |store[key]| < max || now - store[key][0] >= duration
  }

  function Decision(store: Store, key: string, max: int, duration: int, now: int): Reply
    requires Filled(store)
  {
    if key !in store && max < 0 then Panic else Answer(Admits(store, key, max, duration, now))
  }

  function Requested(store: Store, key: string, max: int, duration: int, now: int): Store
    requires Filled(store)
  {
    if !Admits(store, key, max, duration, now) then store
    else if key !in store then store[key := [now]]
    else if |store[key]| < max then store[key := store[key] + [now]]
    else store[key := store[key][1..] + [now]]
  }

  class Limiter {
    var store: Store
    const expiration: nat

    constructor (expiration: nat)
      ensures store == map[] && this.expiration == expiration
    {
      store := map[];
      this.expiration := expiration;
    }

    method Request(key: string, max: int, duration: int, now: int) returns (reply: Reply)
      requires Filled(store)
      modifies this`store
      ensures reply == Decision(old(store), key, max, duration, now)
      ensures store == Requested(old(store), key, max, duration, now) && Filled(store)
    {
      if key in store {
        var queue := store[key];
        if |queue| < max {
          store := store[key := queue + [now]];
          return Answer(true);
        } else if now - queue[0] >= duration {
          queue := queue[1..];
          queue := queue + [now];
          store := store[key := queue];
          return Answer(true);
        } else {
          return Answer(false);
        }
      } else {
        if max < 0 { return Panic; }
        var queue := [];
        queue := queue + [now];
        assert queue == [now];
        store := store[key := queue];
      }
      return Answer(true);
    }

    /** One pass of the sweeper, visiting the keys in any order. */
    method Sweep(now: int)
      modifies this`store
      ensures store == Swept(old(store), expiration, now)
    {
      var keys := store.Keys;
      while keys != {}
        invariant keys <= store.Keys <= old(store).Keys
        invariant forall key | key in store :: store[key] == old(store)[key]
        invariant forall key | key in old(store) ::
          key in store <==> key in keys || !Stale(old(store)[key], expiration, now)
        decreases |keys|
      {
        var key :| key in keys;
        keys := keys - {key};
        if |store[key]| == 0 || now - store[key][|store[key]| - 1] > expiration {
          store := store - {key};
        }
      }
    }
  }

  // ----- Runs and their answers -----

  datatype Event = Request(key: string, now: int) | Sweep(now: int)

  ghost predicate Legal(cfg: Config, events: seq<Event>) {
    && (forall i, j | 0 <= i < j < |events| :: events[i].now <= events[j].now)
    && (forall i | 0 <= i < |events| && events[i].Sweep? :: cfg.sweeper)
  }

  ghost function Answers(cfg: Config, store: Store, events: seq<Event>): seq<Reply>
    requires Filled(store)
    decreases |events|
  {
    if events == [] then []
    else match events[0]
      case Request(key, now) =>
        [Decision(store, key, cfg.max(key), cfg.duration(key), now)]
        + Answers(cfg, Requested(store, key, cfg.max(key), cfg.duration(key), now), events[1..])
      case Sweep(now) => Answers(cfg, Swept(store, cfg.expiration, now), events[1..])
  }

  /** The limiter itself, run over the events, gives those answers. */
  method Serve(cfg: Config, events: seq<Event>) returns (answers: seq<Reply>)
    ensures answers == Answers(cfg, map[], events)
  {
    var limiter := new Limiter(cfg.expiration);
    answers := [];
    assert events[0..] == events;
    for i := 0 to |events|
      invariant Filled(limiter.store)
      invariant answers + Answers(cfg, limiter.store, events[i..]) == Answers(cfg, map[], events)
    {
      assert events[i..][1..] == events[i + 1..];
      match events[i]
      case Request(key, now) =>
        var reply := limiter.Request(key, cfg.max(key), cfg.duration(key), now);
        answers := answers + [reply];
      case Sweep(now) =>
        limiter.Sweep(now);
    }
  }

  /** How many of the admitted times lie in the last `duration` seconds. */
  ghost function Recent(times: seq<int>, duration: int, now: int): nat {
    if times == [] then 0
    else Recent(times[..|times| - 1], duration, now) + (if now - times[|times| - 1] < duration then 1 else 0)
  }

  ghost function Admitted(log: Store, key: string): seq<int> { if key in log then log[key] else [] }

  ghost function Logged(cfg: Config, log: Store, key: string, now: int): Store {
    if Recent(Admitted(log, key), cfg.duration(key), now) < cfg.max(key)
    then log[key := Admitted(log, key) + [now]] else log
  }

  /** The reference: a log of everything admitted so far, and no sweeping. */
  ghost function LogAnswers(cfg: Config, log: Store, events: seq<Event>): seq<Reply>
    decreases |events|
  {
    if events == [] then []
    else match events[0]
      case Request(key, now) =>
        [Answer(Recent(Admitted(log, key), cfg.duration(key), now) < cfg.max(key))]
        + LogAnswers(cfg, Logged(cfg, log, key, now), events[1..])
      case Sweep(now) => LogAnswers(cfg, log, events[1..])
  }

  // ----- The coupling -----

  /** The queue is the tail of the key's log; what was dropped has left the window. */
  ghost predicate Tail(queue: seq<int>, times: seq<int>, max: int, duration: int, now: int) {
    && |queue| <= |times| && queue == times[|times| - |queue|..]
    && |queue| <= max
    && (forall i, j | 0 <= i < j < |times| :: times[i] <= times[j])
    && (forall i | 0 <= i < |times| :: times[i] <= now)
    && (forall i | 0 <= i < |times| - |queue| :: now - times[i] >= duration)
  }

  ghost predicate KeyCoupled(cfg: Config, store: Store, log: Store, key: string, now: int) {
    Tail(Admitted(store, key), Admitted(log, key), cfg.max(key), cfg.duration(key), now)
  }

  ghost predicate Coupled(cfg: Config, store: Store, log: Store, now: int) {
    Filled(store) && forall key :: KeyCoupled(cfg, store, log, key, now)
  }

  lemma {:induction false} RecentAppend(a: seq<int>, b: seq<int>, duration: int, now: int)
    ensures Recent(a + b, duration, now) == Recent(a, duration, now) + Recent(b, duration, now)
    decreases |b|
  {
    if b == [] {
      assert a + b == a;
    } else {
      RecentAppend(a, b[..|b| - 1], duration, now);
      assert (a + b)[..|a + b| - 1] == a + b[..|b| - 1];
    }
  }

  lemma {:induction false} RecentBounds(times: seq<int>, duration: int, now: int)
    ensures Recent(times, duration, now) <= |times|
    ensures (forall i | 0 <= i < |times| :: now - times[i] >= duration) ==> Recent(times, duration, now) == 0
    ensures (forall i | 0 <= i < |times| :: now - times[i] < duration) ==> Recent(times, duration, now) == |times|
    decreases |times|
  {
    if times != [] {
      RecentBounds(times[..|times| - 1], duration, now);
    }
  }

  /** What was dropped from the queue no longer counts. */
  lemma OnlyQueueCounts(queue: seq<int>, times: seq<int>, max: int, duration: int, now: int)
    requires Tail(queue, times, max, duration, now)
    ensures Recent(times, duration, now) == Recent(queue, duration, now)
  {
    var gone := times[..|times| - |queue|];
    assert times == gone + queue;
    RecentAppend(gone, queue, duration, now);
    forall i | 0 <= i < |gone| ensures now - gone[i] >= duration { assert gone[i] == times[i]; }
    RecentBounds(gone, duration, now);
  }

  lemma FullQueueDecides(queue: seq<int>, duration: int, now: int)
    requires queue != [] && forall i | 0 <= i < |queue| :: queue[0] <= queue[i]
    ensures Recent(queue, duration, now) < |queue| <==> now - queue[0] >= duration
  {
  }

  /** The code's test on the queue decides the reference's count over the whole log. */
  lemma SameDecision(queue: seq<int>, times: seq<int>, max: int, duration: int, now: int)
    requires Tail(queue, times, max, duration, now) && max >= 1
    ensures Recent(times, duration, now) < max <==> (|queue| < max || now - queue[0] >= duration)
  {
    OnlyQueueCounts(queue, times, max, duration, now);
    if |queue| < max {
      RecentBounds(queue, duration, now);
    } else {
      var n := |times| - |queue|;
      forall i | 0 <= i < |queue| ensures queue[0] <= queue[i] {
        assert queue[0] == times[n] && queue[i] == times[n + i];
      }
      FullQueueDecides(queue, duration, now);
    }
  }

  lemma TailLater(queue: seq<int>, times: seq<int>, max: int, duration: int, now: int, later: int)
    requires Tail(queue, times, max, duration, now) && now <= later
    ensures Tail(queue, times, max, duration, later)
  {
  }

  lemma TailAdmit(queue: seq<int>, times: seq<int>, max: int, duration: int, now: int)
    requires Tail(queue, times, max, duration, now) && max >= 1
    requires |queue| < max || now - queue[0] >= duration
    ensures Tail(if |queue| < max then queue + [now] else queue[1..] + [now], times + [now], max, duration, now)
  {
  }

  lemma CoupledLater(cfg: Config, store: Store, log: Store, now: int, later: int)
    requires Coupled(cfg, store, log, now) && now <= later
    ensures Coupled(cfg, store, log, later)
  {
    forall k ensures KeyCoupled(cfg, store, log, k, later) {
      assert KeyCoupled(cfg, store, log, k, now);
      TailLater(Admitted(store, k), Admitted(log, k), cfg.max(k), cfg.duration(k), now, later);
    }
  }

  lemma RequestDecides(cfg: Config, store: Store, log: Store, key: string, now: int)
    requires Filled(store) && KeyCoupled(cfg, store, log, key, now) && cfg.max(key) >= 1
    ensures Recent(Admitted(log, key), cfg.duration(key), now) < cfg.max(key)
            <==> Admits(store, key, cfg.max(key), cfg.duration(key), now)
  {
    SameDecision(Admitted(store, key), Admitted(log, key), cfg.max(key), cfg.duration(key), now);
  }

  lemma RequestedQueues(cfg: Config, store: Store, key: string, now: int, k: string)
    requires Filled(store)
    ensures var store' := Requested(store, key, cfg.max(key), cfg.duration(key), now);
      var queue := Admitted(store, key);
      && Filled(store')
      && (k != key ==> Admitted(store', k) == Admitted(store, k))
      && (!Admits(store, key, cfg.max(key), cfg.duration(key), now) ==> Admitted(store', key) == queue)
      && (Admits(store, key, cfg.max(key), cfg.duration(key), now) && cfg.max(key) >= 1 ==>
            Admitted(store', key) == if |queue| < cfg.max(key) then queue + [now] else queue[1..] + [now])
  {
    assert [] + [now] == [now];
  }

  ghost function NextQueue(queue: seq<int>, max: int, now: int): seq<int>
    requires max >= 1 || queue != []
  {
    if |queue| < max then queue + [now] else queue[1..] + [now]
  }

  lemma TailRequest(queue: seq<int>, times: seq<int>, max: int, duration: int, now: int)
    requires Tail(queue, times, max, duration, now) && max >= 1
    ensures var ok := Recent(times, duration, now) < max;
      Tail(if ok then NextQueue(queue, max, now) else queue, if ok then times + [now] else times, max, duration, now)
  {
    SameDecision(queue, times, max, duration, now);
    if Recent(times, duration, now) < max { TailAdmit(queue, times, max, duration, now); }
  }

  lemma SameKey(cfg: Config, store: Store, log: Store, key: string, now: int)
    requires Filled(store) && KeyCoupled(cfg, store, log, key, now) && cfg.max(key) >= 1
    ensures KeyCoupled(cfg, Requested(store, key, cfg.max(key), cfg.duration(key), now),
                       Logged(cfg, log, key, now), key, now)
  {
    var max, duration := cfg.max(key), cfg.duration(key);
    var queue, times := Admitted(store, key), Admitted(log, key);
    var ok := Recent(times, duration, now) < max;
    var queue' := if ok then NextQueue(queue, max, now) else queue;
    var times' := if ok then times + [now] else times;
    assert Admitted(Requested(store, key, max, duration, now), key) == queue' by {
      RequestDecides(cfg, store, log, key, now);
      RequestedQueues(cfg, store, key, now, key);
    }
    assert Admitted(Logged(cfg, log, key, now), key) == times';
    assert Tail(queue', times', max, duration, now) by { TailRequest(queue, times, max, duration, now); }
  }

  lemma OtherKey(cfg: Config, store: Store, log: Store, key: string, now: int, k: string)
    requires Filled(store) && KeyCoupled(cfg, store, log, k, now) && k != key
    ensures KeyCoupled(cfg, Requested(store, key, cfg.max(key), cfg.duration(key), now),
                       Logged(cfg, log, key, now), k, now)
  {
    RequestedQueues(cfg, store, key, now, k);
    assert Admitted(Logged(cfg, log, key, now), k) == Admitted(log, k);
  }

  lemma RequestCoupled(cfg: Config, store: Store, log: Store, key: string, now: int)
    requires Coupled(cfg, store, log, now) && cfg.max(key) >= 1
    ensures Coupled(cfg, Requested(store, key, cfg.max(key), cfg.duration(key), now), Logged(cfg, log, key, now), now)
  {
    var store' := Requested(store, key, cfg.max(key), cfg.duration(key), now);
    assert Filled(store') by { RequestedQueues(cfg, store, key, now, key); }
    forall k ensures KeyCoupled(cfg, store', Logged(cfg, log, key, now), k, now) {
      if k == key { SameKey(cfg, store, log, key, now); } else { OtherKey(cfg, store, log, key, now, k); }
    }
  }

  /** A queue the sweeper removes has wholly left the window. */
  lemma SweepCoupled(cfg: Config, store: Store, log: Store, now: int)
    requires Coupled(cfg, store, log, now)
    requires forall key :: cfg.duration(key) <= cfg.expiration + 1
    ensures Coupled(cfg, Swept(store, cfg.expiration, now), log, now)
  {
    var store' := Swept(store, cfg.expiration, now);
    forall k ensures KeyCoupled(cfg, store', log, k, now) {
      var queue, times := Admitted(store, k), Admitted(log, k);
      assert KeyCoupled(cfg, store, log, k, now);
      if k in store && k !in store' {
        assert times[|times| - 1] == queue[|queue| - 1];
        assert cfg.duration(k) <= cfg.expiration + 1;
      }
    }
  }

  /** The limits every key needs for the limiter to mean what its callers read into it. */
  ghost predicate Sound(cfg: Config) {
    forall key :: cfg.max(key) >= 1 && (cfg.sweeper ==> cfg.duration(key) <= cfg.expiration + 1)
  }

  lemma {:induction false} CoupledAnswers(cfg: Config, store: Store, log: Store, events: seq<Event>, now: int)
    requires Sound(cfg) && Coupled(cfg, store, log, now) && Legal(cfg, events)
    requires events != [] ==> now <= events[0].now
    ensures Answers(cfg, store, events) == LogAnswers(cfg, log, events)
    decreases |events|
  {
    if events != [] {
      var now' := events[0].now;
      CoupledLater(cfg, store, log, now, now');
      match events[0]
      case Request(key, _) =>
        RequestDecides(cfg, store, log, key, now');
        RequestCoupled(cfg, store, log, key, now');
        CoupledAnswers(cfg, Requested(store, key, cfg.max(key), cfg.duration(key), now'),
                       Logged(cfg, log, key, now'), events[1..], now');
      case Sweep(_) =>
        SweepCoupled(cfg, store, log, now');
        CoupledAnswers(cfg, Swept(store, cfg.expiration, now'), log, events[1..], now');
    }
  }

  ghost predicate Faithful(cfg: Config) {
    forall events: seq<Event> | Legal(cfg, events) :: Answers(cfg, map[], events) == LogAnswers(cfg, map[], events)
  }

  lemma SoundIsFaithful(cfg: Config)
    requires Sound(cfg)
    ensures Faithful(cfg)
  {
    forall events: seq<Event> | Legal(cfg, events)
      ensures Answers(cfg, map[], events) == LogAnswers(cfg, map[], events)
    {
      var start := if events == [] then 0 else events[0].now;
      CoupledAnswers(cfg, map[], map[], events, start);
    }
  }

  // ----- The limits are necessary -----

  /** n requests at time 0, then the rest. */
  ghost function Burst(key: string, n: nat, rest: seq<Event>): (events: seq<Event>)
    ensures |events| == n + |rest| && (forall i | 0 <= i < n :: events[i] == Request(key, 0)) && events[n..] == rest
  {
    if n == 0 then rest else [Request(key, 0)] + Burst(key, n - 1, rest)
  }

  ghost function Zeros(n: nat): seq<int> { seq(n, _ => 0) }

  ghost function AfterBurst(key: string, n: nat): Store { if n == 0 then map[] else map[key := Zeros(n)] }

  lemma BurstRequested(cfg: Config, key: string, n: nat)
    requires n < cfg.max(key)
    ensures Filled(AfterBurst(key, n))
    ensures Requested(AfterBurst(key, n), key, cfg.max(key), cfg.duration(key), 0) == AfterBurst(key, n + 1)
  {
    assert Zeros(n) + [0] == Zeros(n + 1) && Zeros(1) == [0];
    assert AfterBurst(key, n)[key := Zeros(n + 1)] == AfterBurst(key, n + 1);
  }

  lemma BurstLogged(cfg: Config, key: string, n: nat)
    requires n < cfg.max(key)
    ensures Logged(cfg, AfterBurst(key, n), key, 0) == AfterBurst(key, n + 1)
  {
    assert Zeros(n) + [0] == Zeros(n + 1);
    assert Admitted(AfterBurst(key, n), key) == Zeros(n);
    RecentBounds(Zeros(n), cfg.duration(key), 0);
    assert AfterBurst(key, n)[key := Zeros(n + 1)] == AfterBurst(key, n + 1);
  }

  /** The store after k requests for the key at time 0. */
  ghost function StoreAfter(cfg: Config, store: Store, key: string, k: nat): (store': Store)
    requires Filled(store)
    ensures Filled(store')
    decreases k
  {
    if k == 0 then store
    else StoreAfter(cfg, Requested(store, key, cfg.max(key), cfg.duration(key), 0), key, k - 1)
  }

  ghost function LogAfter(cfg: Config, log: Store, key: string, k: nat): Store
    decreases k
  {
    if k == 0 then log else LogAfter(cfg, Logged(cfg, log, key, 0), key, k - 1)
  }

  lemma {:induction false} BurstFills(cfg: Config, key: string, k: nat, n: nat)
    requires n + k <= cfg.max(key)
    ensures StoreAfter(cfg, AfterBurst(key, n), key, k) == AfterBurst(key, n + k)
    decreases k
  {
    if k > 0 {
      BurstRequested(cfg, key, n);
      BurstFills(cfg, key, k - 1, n + 1);
    }
  }

  lemma {:induction false} BurstLogs(cfg: Config, key: string, k: nat, n: nat)
    requires n + k <= cfg.max(key)
    ensures LogAfter(cfg, AfterBurst(key, n), key, k) == AfterBurst(key, n + k)
    decreases k
  {
    if k > 0 {
      BurstLogged(cfg, key, n);
      BurstLogs(cfg, key, k - 1, n + 1);
    }
  }

  lemma AnswersHead(cfg: Config, store: Store, key: string, rest: seq<Event>)
    requires Filled(store)
    ensures Answers(cfg, store, [Request(key, 0)] + rest)
            == [Decision(store, key, cfg.max(key), cfg.duration(key), 0)]
               + Answers(cfg, Requested(store, key, cfg.max(key), cfg.duration(key), 0), rest)
  {
    assert ([Request(key, 0)] + rest)[1..] == rest;
  }

  lemma LogAnswersHead(cfg: Config, log: Store, key: string, rest: seq<Event>)
    ensures LogAnswers(cfg, log, [Request(key, 0)] + rest)
            == [Answer(Recent(Admitted(log, key), cfg.duration(key), 0) < cfg.max(key))]
               + LogAnswers(cfg, Logged(cfg, log, key, 0), rest)
  {
    assert ([Request(key, 0)] + rest)[1..] == rest;
  }

  /** After the answers to the burst come those to the rest. */
  lemma {:induction false} AnswersAfter(cfg: Config, store: Store, key: string, k: nat, rest: seq<Event>)
    requires Filled(store)
    ensures var a := Answers(cfg, store, Burst(key, k, rest));
      |a| >= k && a[k..] == Answers(cfg, StoreAfter(cfg, store, key, k), rest)
    decreases k
  {
    if k > 0 {
      var store' := Requested(store, key, cfg.max(key), cfg.duration(key), 0);
      var tail := Answers(cfg, store', Burst(key, k - 1, rest));
      AnswersHead(cfg, store, key, Burst(key, k - 1, rest));
      AnswersAfter(cfg, store', key, k - 1, rest);
      DropShift(Decision(store, key, cfg.max(key), cfg.duration(key), 0), tail, k);
    }
  }

  lemma {:induction false} LogAnswersAfter(cfg: Config, log: Store, key: string, k: nat, rest: seq<Event>)
    ensures var a := LogAnswers(cfg, log, Burst(key, k, rest));
      |a| >= k && a[k..] == LogAnswers(cfg, LogAfter(cfg, log, key, k), rest)
    decreases k
  {
    if k > 0 {
      var tail := LogAnswers(cfg, Logged(cfg, log, key, 0), Burst(key, k - 1, rest));
      LogAnswersHead(cfg, log, key, Burst(key, k - 1, rest));
      LogAnswersAfter(cfg, Logged(cfg, log, key, 0), key, k - 1, rest);
      DropShift(Answer(Recent(Admitted(log, key), cfg.duration(key), 0) < cfg.max(key)), tail, k);
    }
  }

  lemma DropShift(x: Reply, xs: seq<Reply>, k: nat)
    requires 0 < k <= |xs| + 1
    ensures ([x] + xs)[k..] == xs[k - 1..]
  {
  }

  /** With max 0 the very first request is admitted all the same; below 0 it panics. Either way
      the plain reading, which admits nothing, is missed at once. */
  lemma NoRoomMissed(cfg: Config, key: string)
    requires cfg.max(key) <= 0
    ensures var events := [Request(key, 0)];
      && Answers(cfg, map[], events) == [if cfg.max(key) == 0 then Answer(true) else Panic]
      && LogAnswers(cfg, map[], events) == [Answer(false)]
    ensures !Faithful(cfg)
  {
    var events := [Request(key, 0)];
    assert Legal(cfg, events);
    AnswersHead(cfg, map[], key, []);
    LogAnswersHead(cfg, map[], key, []);
    assert [Request(key, 0)] + [] == events;
  }

  lemma ForgottenRequests(cfg: Config, key: string, late: int)
    requires cfg.max(key) >= 1 && late == cfg.expiration + 1 && cfg.duration(key) > late
    ensures var full, rest := AfterBurst(key, cfg.max(key)), [Sweep(late), Request(key, late)];
      Filled(full) && Answers(cfg, full, rest) == [Answer(true)] && LogAnswers(cfg, full, rest) == [Answer(false)]
  {
    var max := cfg.max(key);
    var full, last := AfterBurst(key, max), [Request(key, late)];
    var rest := [Sweep(late)] + last;
    assert rest[1..] == last && last[1..] == [] && rest == [Sweep(late), Request(key, late)];
    assert Swept(full, cfg.expiration, late) == map[];
    assert Answers(cfg, map[], last) == [Answer(true)];
    RecentBounds(Zeros(max), cfg.duration(key), late);
    assert Admitted(full, key) == Zeros(max);
    assert LogAnswers(cfg, full, last) == [Answer(false)];
  }

  /** A window longer than the expiration lets the sweeper forget requests inside it. */
  lemma LongWindowForgets(cfg: Config, key: string)
    requires cfg.max(key) >= 1 && cfg.sweeper && cfg.duration(key) > cfg.expiration + 1
    ensures !Faithful(cfg)
  {
    var max, late := cfg.max(key), cfg.expiration + 1;
    var rest := [Sweep(late), Request(key, late)];
    var events := Burst(key, max, rest);
    assert events[max..] == rest && events[max] == rest[0] && events[max + 1] == rest[1];
    assert Legal(cfg, events);
    ForgottenRequests(cfg, key, late);
    BurstFills(cfg, key, max, 0);
    BurstLogs(cfg, key, max, 0);
    AnswersAfter(cfg, map[], key, max, rest);
    LogAnswersAfter(cfg, map[], key, max, rest);
    assert Answers(cfg, map[], events)[max..] != LogAnswers(cfg, map[], events)[max..];
  }

  /** Over every run with a clock that does not go back, the limiter's answers are those of
      the log, wherever sweeps fall, if and only if every key admits at least one request and
      no window outlasts the expiration by more than a second. */
  lemma FaithfulIffSound(cfg: Config)
    ensures Faithful(cfg) <==> Sound(cfg)
  {
    if Sound(cfg) {
      SoundIsFaithful(cfg);
    } else {
      var key :| !(cfg.max(key) >= 1 && (cfg.sweeper ==> cfg.duration(key) <= cfg.expiration + 1));
      if cfg.max(key) <= 0 {
        NoRoomMissed(cfg, key);
      } else {
        LongWindowForgets(cfg, key);
      }
    }
  }

  ghost function Requests(events: seq<Event>): seq<Event> {
    if events == [] then []
    else (if events[0].Request? then [events[0]] else []) + Requests(events[1..])
  }

  lemma {:induction false} LogIgnoresSweeps(cfg: Config, log: Store, events: seq<Event>)
    ensures LogAnswers(cfg, log, events) == LogAnswers(cfg, log, Requests(events))
    decreases |events|
  {
    if events != [] {
      var rest := Requests(events[1..]);
      match events[0]
      case Request(key, now) =>
        assert Requests(events)[1..] == rest;
        LogIgnoresSweeps(cfg, Logged(cfg, log, key, now), events[1..]);
      case Sweep(_) =>
        assert Requests(events) == rest;
        LogIgnoresSweeps(cfg, log, events[1..]);
    }
  }

  /** Two runs with the same requests get the same answers, however sweeps are interleaved. */
  lemma SweepsNeverChangeAnswers(cfg: Config, a: seq<Event>, b: seq<Event>)
    requires Sound(cfg) && Legal(cfg, a) && Legal(cfg, b) && Requests(a) == Requests(b)
    ensures Answers(cfg, map[], a) == Answers(cfg, map[], b)
  {
    SoundIsFaithful(cfg);
    LogIgnoresSweeps(cfg, map[], a);
    LogIgnoresSweeps(cfg, map[], b);
  }
}

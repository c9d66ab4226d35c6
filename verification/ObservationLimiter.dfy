/** Admission of plugin protocol observations: four nested limits (global, per plugin,
    per user, per token) with staged rollback, and a release that takes effect once. The
    mutex makes each acquire and each release one atomic step. */
module ObservationLimiter {
  import opened Text

  datatype Limits = Limits(global: int, perPlugin: int, perUser: int, perToken: int)

  datatype Identity = Identity(plugin: string, user: int, token: int)

  datatype Counters = Counters(global: int, plugin: map<string, int>, user: map<int, int>, token: map<int, int>)

  const EMPTY := Counters(0, map[], map[], map[])

  /** One of the four counted scopes, with its key. */
  datatype Scope = Global | Plugin(plugin: string) | User(user: int) | Token(token: int)

  datatype Outcome = Granted | BadIdentity | Refused(scope: Scope, limit: int)

  // ----- Counting maps -----

  /** Go's map read: a missing key counts 0. */
  function Get<K>(m: map<K, int>, k: K): int { if k in m then m[k] else 0 }

  function Inc<K>(m: map<K, int>, k: K): map<K, int> { m[k := Get(m, k) + 1] }

  function Dec<K>(m: map<K, int>, k: K): map<K, int> {
    if Get(m, k) - 1 == 0 then m - {k} else m[k := Get(m, k) - 1]
  }

  predicate Positive<K>(m: map<K, int>) { forall k | k in m :: m[k] > 0 }

  /** Rolling back an increment restores the map, with no entry left behind. */
  lemma DecUndoesInc<K>(m: map<K, int>, k: K)
    requires Positive(m)
    ensures Dec(Inc(m, k), k) == m
  {
  }

  // ----- The specification -----

  function Held(c: Counters, scope: Scope): int {
    match scope
    case Global => c.global
    case Plugin(k) => Get(c.plugin, k)
    case User(u) => Get(c.user, u)
    case Token(t) => Get(c.token, t)
  }

  function LimitOf(limits: Limits, scope: Scope): int {
    match scope
    case Global => limits.global
    case Plugin(_) => limits.perPlugin
    case User(_) => limits.perUser
    case Token(_) => limits.perToken
  }

  /** The scopes of an identity, in the order they are tested. */
  function ScopesOf(id: Identity): seq<Scope> { [Global, Plugin(id.plugin), User(id.user), Token(id.token)] }

  predicate Full(limits: Limits, c: Counters, scope: Scope) { Held(c, scope) >= LimitOf(limits, scope) }

  function Decide(limits: Limits, c: Counters, id: Identity): Outcome {
    var scopes := ScopesOf(id);
    if id.plugin == [] || id.user <= 0 || id.token <= 0 then BadIdentity
    else if Full(limits, c, scopes[0]) then Refused(scopes[0], limits.global)
    else if Full(limits, c, scopes[1]) then Refused(scopes[1], limits.perPlugin)
    else if Full(limits, c, scopes[2]) then Refused(scopes[2], limits.perUser)
    else if Full(limits, c, scopes[3]) then Refused(scopes[3], limits.perToken)
    else Granted
  }

  function Taken(c: Counters, id: Identity): Counters {
    Counters(c.global + 1, Inc(c.plugin, id.plugin), Inc(c.user, id.user), Inc(c.token, id.token))
  }

  function Freed(c: Counters, id: Identity): Counters {
    Counters(c.global - 1, Dec(c.plugin, id.plugin), Dec(c.user, id.user), Dec(c.token, id.token))
  }

  predicate Clean(c: Counters) { Positive(c.plugin) && Positive(c.user) && Positive(c.token) }

  // ----- The limiter and its leases -----

  class Limiter {
    const limits: Limits
    var global: int
    var plugin: map<string, int>
    var user: map<int, int>
    var token: map<int, int>

    constructor (limits: Limits)
      ensures this.limits == limits && View() == EMPTY
    {
      this.limits := limits;
      global, plugin, user, token := 0, map[], map[], map[];
    }

    function View(): Counters
      reads this
    {
      Counters(global, plugin, user, token)
    }

    method ReleasePlugin(key: string)
      modifies this`plugin
      ensures plugin == Dec(old(plugin), key)
    {
      plugin := plugin[key := Get(plugin, key) - 1];
      if plugin[key] == 0 {
        plugin := plugin - {key};
        assert plugin == old(plugin) - {key};
      }
    }

    method ReleaseUser(id: int)
      modifies this`user
      ensures user == Dec(old(user), id)
    {
      user := user[id := Get(user, id) - 1];
      if user[id] == 0 {
        user := user - {id};
        assert user == old(user) - {id};
      }
    }

    method ReleaseToken(id: int)
      modifies this`token
      ensures token == Dec(old(token), id)
    {
      token := token[id := Get(token, id) - 1];
      if token[id] == 0 {
        token := token - {id};
        assert token == old(token) - {id};
      }
    }

    /** Takes the four scopes one after the other and gives back those taken when a later
        one is full; a refusal therefore leaves the counters as they were, given that no map
        holds a zero entry, as in every run. */
    method Acquire(pluginKey: string, userId: int, tokenId: int) returns (outcome: Outcome, lease: Lease?)
      requires Clean(View())
      modifies this
      ensures var id := Identity(TrimSpace(pluginKey), userId, tokenId);
        && outcome == Decide(limits, old(View()), id)
        && View() == (if outcome.Granted? then Taken(old(View()), id) else old(View()))
        && (outcome.Granted? <==> lease != null)
        && (lease != null ==> fresh(lease) && lease.limiter == this && lease.id == id && !lease.released)
    {
      var key := TrimSpace(pluginKey);
      lease := null;
      if key == [] || userId <= 0 || tokenId <= 0 {
        return BadIdentity, null;
      }
      if global >= limits.global {
        return Refused(Global, limits.global), null;
      }
      global := global + 1;
      if Get(plugin, key) >= limits.perPlugin {
        global := global - 1;
        return Refused(Plugin(key), limits.perPlugin), null;
      }
      plugin := Inc(plugin, key);
      if Get(user, userId) >= limits.perUser {
        global := global - 1;
        DecUndoesInc(old(plugin), key);
        ReleasePlugin(key);
        return Refused(User(userId), limits.perUser), null;
      }
      user := Inc(user, userId);
      if Get(token, tokenId) >= limits.perToken {
        global := global - 1;
        DecUndoesInc(old(plugin), key);
        ReleasePlugin(key);
        DecUndoesInc(old(user), userId);
        ReleaseUser(userId);
        return Refused(Token(tokenId), limits.perToken), null;
      }
      token := Inc(token, tokenId);
      lease := new Lease(this, Identity(key, userId, tokenId));
      outcome := Granted;
    }
  }

  /** The release closure and the sync.Once it captures. */
  class Lease {
    const limiter: Limiter
    const id: Identity
    var released: bool

    constructor (limiter: Limiter, id: Identity)
      ensures this.limiter == limiter && this.id == id && !released
    {
      this.limiter := limiter;
      this.id := id;
      released := false;
    }

    method Release()
      modifies this, limiter
      ensures released
      ensures limiter.View() == if old(released) then old(limiter.View()) else Freed(old(limiter.View()), id)
    {
      if released { return; }
      released := true;
      limiter.global := limiter.global - 1;
      limiter.ReleasePlugin(id.plugin);
      limiter.ReleaseUser(id.user);
      limiter.ReleaseToken(id.token);
    }
  }

  // ----- Every run of acquires and releases -----

  datatype Grant = Grant(id: Identity, live: bool)

  /** The counters, and every lease ever granted. */
  datatype System = System(counters: Counters, grants: seq<Grant>)

  /** Release(i) calls the i-th granted release closure, possibly not for the first time. */
  datatype Op = Acquire(id: Identity) | Release(i: nat)

  function Perform(limits: Limits, s: System, op: Op): System {
    match op
    case Acquire(id) =>
      if Decide(limits, s.counters, id).Granted?
      then System(Taken(s.counters, id), s.grants + [Grant(id, true)]) else s
    case Release(i) =>
      if i < |s.grants| && s.grants[i].live
      then System(Freed(s.counters, s.grants[i].id), s.grants[i := s.grants[i].(live := false)]) else s
  }

  function PerformAll(limits: Limits, s: System, ops: seq<Op>): System {
    if ops == [] then s else Perform(limits, PerformAll(limits, s, ops[..|ops| - 1]), ops[|ops| - 1])
  }

  predicate InScope(id: Identity, scope: Scope) { scope in ScopesOf(id) }

  /** Outstanding leases in a scope. */
  ghost function Outstanding(grants: seq<Grant>, scope: Scope): nat {
    if grants == [] then 0
    else
      var last := grants[|grants| - 1];
      Outstanding(grants[..|grants| - 1], scope) + (if last.live && InScope(last.id, scope) then 1 else 0)
  }

  lemma {:induction false} OutstandingRelease(grants: seq<Grant>, i: nat, scope: Scope)
    requires i < |grants| && grants[i].live
    ensures Outstanding(grants[i := grants[i].(live := false)], scope)
            == Outstanding(grants, scope) - (if InScope(grants[i].id, scope) then 1 else 0)
    decreases |grants|
  {
    var grants' := grants[i := grants[i].(live := false)];
    var n := |grants| - 1;
    if i == n {
      assert grants'[..n] == grants[..n];
    } else {
      OutstandingRelease(grants[..n], i, scope);
      assert grants'[..n] == grants[..n][i := grants[i].(live := false)];
    }
  }

  lemma {:induction false} OutstandingLive(grants: seq<Grant>, i: nat, scope: Scope)
    requires i < |grants| && grants[i].live && InScope(grants[i].id, scope)
    ensures Outstanding(grants, scope) > 0
    decreases |grants|
  {
    if i < |grants| - 1 {
      OutstandingLive(grants[..|grants| - 1], i, scope);
    }
  }

  ghost predicate ScopeAccurate(limits: Limits, s: System, scope: Scope) {
    && Held(s.counters, scope) == Outstanding(s.grants, scope)
    && (Outstanding(s.grants, scope) > 0 ==> Outstanding(s.grants, scope) <= LimitOf(limits, scope))
  }

  /** Every counter is the number of outstanding leases in its scope, no scope holds more
      than its limit, and no map keeps an entry for a scope nobody holds. */
  ghost predicate Accurate(limits: Limits, s: System) {
    Clean(s.counters) && forall scope :: ScopeAccurate(limits, s, scope)
  }

  lemma HeldFreed(c: Counters, id: Identity, scope: Scope)
    ensures Held(Freed(c, id), scope) == Held(c, scope) - (if InScope(id, scope) then 1 else 0)
  {
  }

  lemma DecPositive<K>(m: map<K, int>, k: K)
    requires Positive(m) && Get(m, k) > 0
    ensures Positive(Dec(m, k))
  {
  }

  lemma AcquireAccurate(limits: Limits, s: System, id: Identity, scope: Scope)
    requires ScopeAccurate(limits, s, scope) && Decide(limits, s.counters, id).Granted?
    ensures ScopeAccurate(limits, Perform(limits, s, Acquire(id)), scope)
  {
  }

  lemma ReleaseAccurate(limits: Limits, s: System, i: nat, scope: Scope)
    requires ScopeAccurate(limits, s, scope) && i < |s.grants| && s.grants[i].live
    ensures ScopeAccurate(limits, Perform(limits, s, Release(i)), scope)
  {
    HeldFreed(s.counters, s.grants[i].id, scope);
    OutstandingRelease(s.grants, i, scope);
  }

  lemma ReleaseClean(limits: Limits, s: System, i: nat)
    requires Accurate(limits, s) && i < |s.grants| && s.grants[i].live
    ensures Clean(Freed(s.counters, s.grants[i].id))
  {
    var id := s.grants[i].id;
    assert ScopeAccurate(limits, s, Plugin(id.plugin)) && ScopeAccurate(limits, s, User(id.user))
        && ScopeAccurate(limits, s, Token(id.token));
    OutstandingLive(s.grants, i, Plugin(id.plugin));
    OutstandingLive(s.grants, i, User(id.user));
    OutstandingLive(s.grants, i, Token(id.token));
    DecPositive(s.counters.plugin, id.plugin);
    DecPositive(s.counters.user, id.user);
    DecPositive(s.counters.token, id.token);
  }

  lemma PerformAccurate(limits: Limits, s: System, op: Op)
    requires Accurate(limits, s)
    ensures Accurate(limits, Perform(limits, s, op))
  {
    match op
    case Acquire(id) =>
      if Decide(limits, s.counters, id).Granted? {
        forall scope ensures ScopeAccurate(limits, Perform(limits, s, op), scope) {
          AcquireAccurate(limits, s, id, scope);
        }
      }
    case Release(i) =>
      if i < |s.grants| && s.grants[i].live {
        ReleaseClean(limits, s, i);
        forall scope ensures ScopeAccurate(limits, Perform(limits, s, op), scope) {
          ReleaseAccurate(limits, s, i, scope);
        }
      }
  }

  /** After every run of acquires and (possibly repeated) releases the counters are accurate. */
  lemma {:induction false} EveryRunIsAccurate(limits: Limits, ops: seq<Op>)
    ensures Accurate(limits, PerformAll(limits, System(EMPTY, []), ops))
    decreases |ops|
  {
    if ops != [] {
      EveryRunIsAccurate(limits, ops[..|ops| - 1]);
      PerformAccurate(limits, PerformAll(limits, System(EMPTY, []), ops[..|ops| - 1]), ops[|ops| - 1]);
    }
  }

  /** Plugin keys are trimmed on the way in. */
  function Trimmed(op: Op): Op {
    match op
    case Acquire(id) => Acquire(id.(plugin := TrimSpace(id.plugin)))
    case Release(i) => Release(i)
  }

  function TrimmedAll(ops: seq<Op>): seq<Op> { seq(|ops|, i requires 0 <= i < |ops| => Trimmed(ops[i])) }

  ghost predicate Follows(limiter: Limiter, leases: seq<Lease>, s: System)
    reads limiter, leases
  {
    && limiter.View() == s.counters && |leases| == |s.grants|
    && (forall k | 0 <= k < |leases| ::
          leases[k].limiter == limiter && leases[k].id == s.grants[k].id && leases[k].released == !s.grants[k].live)
    && (forall j, k | 0 <= j < k < |leases| :: leases[j] != leases[k])
  }

  method ServeOne(limiter: Limiter, leases: seq<Lease>, op: Op, ghost s: System) returns (leases': seq<Lease>)
    requires Follows(limiter, leases, s) && Clean(s.counters)
    modifies limiter, leases
    ensures Follows(limiter, leases', Perform(limiter.limits, s, Trimmed(op)))
    ensures leases <= leases' && forall k | |leases| <= k < |leases'| :: fresh(leases'[k])
  {
    leases' := leases;
    match op
    case Acquire(id) =>
      var _, lease := limiter.Acquire(id.plugin, id.user, id.token);
      if lease != null { leases' := leases + [lease]; }
    case Release(i) =>
      if i < |leases| { leases[i].Release(); }
  }

  /** The limiter and its leases themselves, run over the operations, stay with the system. */
  method Serve(limits: Limits, ops: seq<Op>) returns (limiter: Limiter, leases: seq<Lease>)
    ensures limiter.limits == limits
    ensures Follows(limiter, leases, PerformAll(limits, System(EMPTY, []), TrimmedAll(ops)))
  {
    limiter := new Limiter(limits);
    leases := [];
    ghost var trimmed, s := TrimmedAll(ops), System(EMPTY, []);
    for n := 0 to |ops|
      invariant fresh(limiter) && limiter.limits == limits && forall k | 0 <= k < |leases| :: fresh(leases[k])
      invariant s == PerformAll(limits, System(EMPTY, []), trimmed[..n]) && Follows(limiter, leases, s)
    {
      EveryRunIsAccurate(limits, trimmed[..n]);
      assert trimmed[..n + 1][..n] == trimmed[..n];
      leases := ServeOne(limiter, leases, ops[n], s);
      s := Perform(limits, s, trimmed[n]);
    }
    assert trimmed[..|ops|] == trimmed;
  }

  // ----- The same in plain counts -----

  /** How many of the granted leases are live and belong to an identity that is picked. */
  ghost function Live(grants: seq<Grant>, pick: Identity -> bool): nat {
    if grants == [] then 0
    else
      var last := grants[|grants| - 1];
      Live(grants[..|grants| - 1], pick) + (if last.live && pick(last.id) then 1 else 0)
  }

  ghost function Anyone(): Identity -> bool { (id: Identity) => true }

  ghost function OfPlugin(k: string): Identity -> bool { (id: Identity) => id.plugin == k }

  ghost function OfUser(u: int): Identity -> bool { (id: Identity) => id.user == u }

  ghost function OfToken(t: int): Identity -> bool { (id: Identity) => id.token == t }

  lemma {:induction false} OutstandingIsLive(grants: seq<Grant>, scope: Scope)
    ensures Outstanding(grants, scope) == Live(grants, match scope
              case Global => Anyone()
              case Plugin(k) => OfPlugin(k)
              case User(u) => OfUser(u)
              case Token(t) => OfToken(t))
    decreases |grants|
  {
    if grants != [] { OutstandingIsLive(grants[..|grants| - 1], scope); }
  }

  /** A counter and what it counts: they agree, and within the limit unless nothing is counted. */
  ghost predicate Counts(counter: int, live: nat, limit: int) { counter == live && (live > 0 ==> live <= limit) }

  /** After every run each of the four counters is the number of live leases of its kind, at
      most its own limit, and the maps hold exactly the keys with a live lease. */
  lemma EveryRunCounts(limits: Limits, ops: seq<Op>, id: Identity)
    ensures var s := PerformAll(limits, System(EMPTY, []), ops);
      && Counts(s.counters.global, Live(s.grants, Anyone()), limits.global)
      && Counts(Get(s.counters.plugin, id.plugin), Live(s.grants, OfPlugin(id.plugin)), limits.perPlugin)
      && Counts(Get(s.counters.user, id.user), Live(s.grants, OfUser(id.user)), limits.perUser)
      && Counts(Get(s.counters.token, id.token), Live(s.grants, OfToken(id.token)), limits.perToken)
      && (id.plugin in s.counters.plugin <==> Live(s.grants, OfPlugin(id.plugin)) > 0)
      && (id.user in s.counters.user <==> Live(s.grants, OfUser(id.user)) > 0)
      && (id.token in s.counters.token <==> Live(s.grants, OfToken(id.token)) > 0)
  {
    var s := PerformAll(limits, System(EMPTY, []), ops);
    EveryRunIsAccurate(limits, ops);
    assert ScopeAccurate(limits, s, Global) && ScopeAccurate(limits, s, Plugin(id.plugin))
        && ScopeAccurate(limits, s, User(id.user)) && ScopeAccurate(limits, s, Token(id.token));
    OutstandingIsLive(s.grants, Global);
    OutstandingIsLive(s.grants, Plugin(id.plugin));
    OutstandingIsLive(s.grants, User(id.user));
    OutstandingIsLive(s.grants, Token(id.token));
  }

  /** In every run the answer to an acquire is a matter of the live leases: a bad identity is
      turned away, else the first of global, plugin, user and token that has reached its own
      limit is named with that limit, else the lease is granted; and releasing a new lease at
      once brings the counters back to where they were. */
  lemma AdmissionIsExact(limits: Limits, ops: seq<Op>, id: Identity)
    ensures var s := PerformAll(limits, System(EMPTY, []), ops);
      && Decide(limits, s.counters, id) ==
         (if id.plugin == [] || id.user <= 0 || id.token <= 0 then BadIdentity
          else if Live(s.grants, Anyone()) >= limits.global then Refused(Global, limits.global)
          else if Live(s.grants, OfPlugin(id.plugin)) >= limits.perPlugin
            then Refused(Plugin(id.plugin), limits.perPlugin)
          else if Live(s.grants, OfUser(id.user)) >= limits.perUser then Refused(User(id.user), limits.perUser)
          else if Live(s.grants, OfToken(id.token)) >= limits.perToken then Refused(Token(id.token), limits.perToken)
          else Granted)
      && Freed(Taken(s.counters, id), id) == s.counters
  {
    var s := PerformAll(limits, System(EMPTY, []), ops);
    EveryRunCounts(limits, ops, id);
    EveryRunIsAccurate(limits, ops);
    DecUndoesInc(s.counters.plugin, id.plugin);
    DecUndoesInc(s.counters.user, id.user);
    DecUndoesInc(s.counters.token, id.token);
  }

  const DEFAULT_LIMITS := Limits(128, 32, 4, 2)

  /** With the default limits an identity is admitted up to 128 leases in all, 32 of its
      plugin, 4 of its user and 2 of its token. */
  lemma DefaultAdmission(ops: seq<Op>, id: Identity)
    requires id.plugin != [] && id.user > 0 && id.token > 0
    ensures var s := PerformAll(DEFAULT_LIMITS, System(EMPTY, []), ops);
      Decide(DEFAULT_LIMITS, s.counters, id).Granted? <==>
        && Live(s.grants, Anyone()) < 128 && Live(s.grants, OfPlugin(id.plugin)) < 32
        && Live(s.grants, OfUser(id.user)) < 4 && Live(s.grants, OfToken(id.token)) < 2
  {
    AdmissionIsExact(DEFAULT_LIMITS, ops, id);
  }
}

/** The verification-code store: a map that evicts expired codes once it grows past its
    limit, against a map that never forgets. Times are nanoseconds. */
module VerificationStore {

  datatype Code = Code(code: string, time: int)

  type Codes = map<string, Code>

  const VALID_MINUTES := 10
  const MAX_SIZE := 10
  const SECOND := 1000000000

  /** int(d.Seconds()): truncation toward zero. */
  function WholeSeconds(d: int): int { if d >= 0 then d / SECOND else -((-d) / SECOND) }

  predicate Expired(c: Code, now: int) { WholeSeconds(now - c.time) >= VALID_MINUTES * 60 }

  function Unexpired(codes: Codes, now: int): Codes {
    map k | k in codes && !Expired(codes[k], now) :: codes[k]
  }

  function Registered(codes: Codes, k: string, code: string, now: int): Codes {
    var codes' := codes[k := Code(code, now)];
    if |codes'| > MAX_SIZE then Unexpired(codes', now) else codes'
  }

  predicate Verifies(codes: Codes, k: string, code: string, now: int) {
    k in codes && !Expired(codes[k], now) && code == codes[k].code
  }

  /** A code has expired once it is 600 seconds old. */
  lemma ExpiredIff(c: Code, now: int)
    ensures Expired(c, now) <==> now - c.time >= 600_000_000_000
  {
  }

  /** Registering stores the code. Up to ten codes are all kept; beyond that, those of 600
      seconds and more are dropped and no other. */
  lemma RegisteredIs(codes: Codes, k: string, code: string, now: int, x: string)
    ensures var all := codes[k := Code(code, now)];
      var codes' := Registered(codes, k, code, now);
      && (x in codes' <==> x in all && (|all| <= 10 || now - all[x].time < 600_000_000_000))
      && (x in codes' ==> codes'[x] == all[x])
      && k in codes' && codes'[k] == Code(code, now)
  {
    var all := codes[k := Code(code, now)];
    if x in all { ExpiredIff(all[x], now); }
    ExpiredIff(Code(code, now), now);
  }

  class Store {
    var codes: Codes

    constructor ()
      ensures codes == map[]
    {
      codes := map[];
    }

    method Register(key: string, code: string, purpose: string, now: int)
      modifies this
      ensures codes == Registered(old(codes), purpose + key, code, now)
    {
      codes := codes[purpose + key := Code(code, now)];
      if |codes| > MAX_SIZE { RemoveExpired(now); }
    }

    method Verify(key: string, code: string, purpose: string, now: int) returns (ok: bool)
      ensures ok == Verifies(codes, purpose + key, code, now)
    {
      var k := purpose + key;
      if k !in codes || Expired(codes[k], now) { return false; }
      return code == codes[k].code;
    }

    method Delete(key: string, purpose: string)
      modifies this
      ensures codes == old(codes) - {purpose + key}
    {
      codes := codes - {purpose + key};
    }

    /** Visits the keys in any order. */
    method RemoveExpired(now: int)
      modifies this
      ensures codes == Unexpired(old(codes), now)
    {
      var todo := codes.Keys;
      while todo != {}
        invariant todo <= codes.Keys <= old(codes).Keys
        invariant forall k | k in codes :: codes[k] == old(codes)[k]
        invariant forall k | k in old(codes) :: k in codes <==> k in todo || !Expired(old(codes)[k], now)
        decreases |todo|
      {
        var k :| k in todo;
        todo := todo - {k};
        if Expired(codes[k], now) { codes := codes - {k}; }
      }
    }
  }

  // ----- Runs -----

  /** A purpose and a key, kept apart. */
  datatype Slot = Slot(purpose: string, key: string)

  function Name(slot: Slot): string { slot.purpose + slot.key }

  datatype Event =
    | Register(slot: Slot, code: string, now: int)
    | Verify(slot: Slot, code: string, now: int)
    | Delete(slot: Slot, now: int)

  ghost function Answers(codes: Codes, events: seq<Event>): seq<bool>
    decreases |events|
  {
    if events == [] then []
    else match events[0]
      case Register(slot, code, now) => Answers(Registered(codes, Name(slot), code, now), events[1..])
      case Verify(slot, code, now) => [Verifies(codes, Name(slot), code, now)] + Answers(codes, events[1..])
      case Delete(slot, _) => Answers(codes - {Name(slot)}, events[1..])
  }

  /** The store itself, run over the events, gives those answers. */
  method Serve(events: seq<Event>) returns (answers: seq<bool>)
    ensures answers == Answers(map[], events)
  {
    var store := new Store();
    answers := [];
    assert events[0..] == events;
    for i := 0 to |events|
      invariant answers + Answers(store.codes, events[i..]) == Answers(map[], events)
    {
      assert events[i..][1..] == events[i + 1..];
      match events[i]
      case Register(slot, code, now) => store.Register(slot.key, code, slot.purpose, now);
      case Verify(slot, code, now) =>
        var ok := store.Verify(slot.key, code, slot.purpose, now);
        answers := answers + [ok];
      case Delete(slot, _) => store.Delete(slot.key, slot.purpose);
    }
  }

  /** The reference: the latest registration of each purpose and key that was not deleted
      since, however old. A code is good for 600 seconds. */
  type Register = map<Slot, Code>

  ghost predicate Confirms(reg: Register, slot: Slot, code: string, now: int) {
    slot in reg && now - reg[slot].time < 600_000_000_000 && code == reg[slot].code
  }

  ghost function ReferenceAnswers(reg: Register, events: seq<Event>): seq<bool>
    decreases |events|
  {
    if events == [] then []
    else match events[0]
      case Register(slot, code, now) => ReferenceAnswers(reg[slot := Code(code, now)], events[1..])
      case Verify(slot, code, now) => [Confirms(reg, slot, code, now)] + ReferenceAnswers(reg, events[1..])
      case Delete(slot, _) => ReferenceAnswers(reg - {slot}, events[1..])
  }

  ghost predicate Legal(purposes: set<string>, events: seq<Event>) {
    && (forall i, j | 0 <= i < j < |events| :: events[i].now <= events[j].now)
    && (forall i | 0 <= i < |events| :: events[i].slot.purpose in purposes)
  }

  ghost predicate Faithful(purposes: set<string>) {
    forall events: seq<Event> | Legal(purposes, events) :: Answers(map[], events) == ReferenceAnswers(map[], events)
  }

  /** No purpose is the beginning of another. */
  ghost predicate PrefixFree(purposes: set<string>) {
    forall p, q | p in purposes && q in purposes && p <= q :: p == q
  }

  lemma NamesApart(purposes: set<string>, a: Slot, b: Slot)
    requires PrefixFree(purposes) && a.purpose in purposes && b.purpose in purposes && Name(a) == Name(b)
    ensures a == b
  {
    var p, q := a.purpose, b.purpose;
    assert p == Name(a)[..|p|] && q == Name(b)[..|q|];
    assert |p| <= |q| ==> p <= q;
    assert |q| <= |p| ==> q <= p;
    assert a.key == Name(a)[|p|..] && b.key == Name(b)[|q|..];
  }

  // ----- The coupling -----

  /** The store holds what the reference holds, or nothing and the reference's has expired. */
  ghost predicate SlotCoupled(codes: Codes, reg: Register, slot: Slot, now: int) {
    if slot in reg then (if Name(slot) in codes then codes[Name(slot)] == reg[slot] else Expired(reg[slot], now))
    else Name(slot) !in codes
  }

  ghost predicate Coupled(purposes: set<string>, codes: Codes, reg: Register, now: int) {
    forall slot: Slot | slot.purpose in purposes :: SlotCoupled(codes, reg, slot, now)
  }

  lemma CoupledLater(purposes: set<string>, codes: Codes, reg: Register, now: int, later: int)
    requires Coupled(purposes, codes, reg, now) && now <= later
    ensures Coupled(purposes, codes, reg, later)
  {
  }

  lemma EvictionCoupled(purposes: set<string>, codes: Codes, reg: Register, now: int)
    requires Coupled(purposes, codes, reg, now)
    ensures Coupled(purposes, Unexpired(codes, now), reg, now)
  {
  }

  lemma RegisterCoupled(purposes: set<string>, codes: Codes, reg: Register, slot: Slot, code: string, now: int)
    requires PrefixFree(purposes) && slot.purpose in purposes && Coupled(purposes, codes, reg, now)
    ensures Coupled(purposes, Registered(codes, Name(slot), code, now), reg[slot := Code(code, now)], now)
  {
    var codes', reg' := codes[Name(slot) := Code(code, now)], reg[slot := Code(code, now)];
    forall s: Slot | s.purpose in purposes ensures SlotCoupled(codes', reg', s, now) {
      assert SlotCoupled(codes, reg, s, now);
      if Name(s) == Name(slot) { NamesApart(purposes, s, slot); }
    }
    EvictionCoupled(purposes, codes', reg', now);
  }

  lemma DeleteCoupled(purposes: set<string>, codes: Codes, reg: Register, slot: Slot, now: int)
    requires PrefixFree(purposes) && slot.purpose in purposes && Coupled(purposes, codes, reg, now)
    ensures Coupled(purposes, codes - {Name(slot)}, reg - {slot}, now)
  {
    forall s: Slot | s.purpose in purposes ensures SlotCoupled(codes - {Name(slot)}, reg - {slot}, s, now) {
      assert SlotCoupled(codes, reg, s, now);
      if Name(s) == Name(slot) { NamesApart(purposes, s, slot); }
    }
  }

  lemma {:induction false} CoupledAnswers(purposes: set<string>, codes: Codes, reg: Register, events: seq<Event>,
                                          now: int)
    requires PrefixFree(purposes) && Legal(purposes, events) && Coupled(purposes, codes, reg, now)
    requires events != [] ==> now <= events[0].now
    ensures Answers(codes, events) == ReferenceAnswers(reg, events)
    decreases |events|
  {
    if events != [] {
      var now' := events[0].now;
      CoupledLater(purposes, codes, reg, now, now');
      match events[0]
      case Register(slot, code, _) =>
        RegisterCoupled(purposes, codes, reg, slot, code, now');
        CoupledAnswers(purposes, Registered(codes, Name(slot), code, now'), reg[slot := Code(code, now')],
                       events[1..], now');
      case Verify(slot, code, _) =>
        assert SlotCoupled(codes, reg, slot, now');
        CoupledAnswers(purposes, codes, reg, events[1..], now');
      case Delete(slot, _) =>
        DeleteCoupled(purposes, codes, reg, slot, now');
        CoupledAnswers(purposes, codes - {Name(slot)}, reg - {slot}, events[1..], now');
    }
  }

  /** If one purpose begins another, a code registered for one is accepted for the other. */
  lemma PrefixConfuses(purposes: set<string>, p: string, q: string)
    requires p in purposes && q in purposes && p <= q && p != q
    ensures !Faithful(purposes)
  {
    var a, b := Slot(q, []), Slot(p, q[|p|..]);
    assert Name(a) == q == Name(b);
    var check := [Verify(b, [], 0)];
    var events := [Event.Register(a, [], 0)] + check;
    assert events[1..] == check && check[1..] == [];
    assert Legal(purposes, events);
    var codes := Registered(map[], q, [], 0);
    assert codes == map[q := Code([], 0)];
    assert Answers(codes, check)[0];
    assert !ReferenceAnswers(map[a := Code([], 0)], check)[0];
    assert map[][a := Code([], 0)] == map[a := Code([], 0)];
    assert Answers(map[], events) == Answers(codes, check);
    assert ReferenceAnswers(map[], events) == ReferenceAnswers(map[a := Code([], 0)], check);
  }

  /** Over every run with a clock that does not go back, eviction never changes an answer: a
      code verifies exactly when it is the latest undeleted registration for that purpose and
      key and is still valid - if and only if no purpose is the beginning of another. */
  lemma FaithfulIffPrefixFree(purposes: set<string>)
    ensures Faithful(purposes) <==> PrefixFree(purposes)
  {
    if PrefixFree(purposes) {
      forall events: seq<Event> | Legal(purposes, events)
        ensures Answers(map[], events) == ReferenceAnswers(map[], events)
      {
        CoupledAnswers(purposes, map[], map[], events, if events == [] then 0 else events[0].now);
      }
    } else {
      var p, q :| p in purposes && q in purposes && p <= q && p != q;
      PrefixConfuses(purposes, p, q);
    }
  }

  /** The two purposes in use are apart. */
  lemma PurposesInUse()
    ensures PrefixFree({"v", "r"}) && Faithful({"v", "r"})
  {
    FaithfulIffPrefixFree({"v", "r"});
  }
}

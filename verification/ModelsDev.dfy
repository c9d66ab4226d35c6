/** Choosing one price per model from the models.dev listing, where several providers may
    price the same model. */
module ModelsDev {
  import opened Text
  import opened Pricing
  import opened Differences

  datatype Cost = Cost(input: Option<Float>, output: Option<Float>, cacheRead: Option<Float>)

  datatype Candidate = Candidate(provider: string, input: real, output: Option<Float>, cacheRead: Option<Float>)

  /** provider -> model -> cost */
  type Feed = map<string, map<string, Cost>>

  predicate ValidCost(f: Float) { f.Fin? && f.r >= 0.0 }

  function Build(provider: string, cost: Cost): (c: Option<Candidate>)
    ensures c.Some? <==>
            && cost.input.Some? && cost.input.value.Fin? && cost.input.value.r >= 0.0
            && (cost.output.Some? ==> cost.output.value.Fin? && cost.output.value.r >= 0.0)
            && (cost.output.Some? && cost.output.value.r > 0.0 ==> cost.input.value.r > 0.0)
    ensures c.Some? ==>
            && c.value.provider == provider && cost.input == Some(Fin(c.value.input)) && c.value.output == cost.output
            && (c.value.cacheRead.Some? <==>
                  cost.cacheRead.Some? && cost.cacheRead.value.Fin? && cost.cacheRead.value.r >= 0.0)
            && (c.value.cacheRead.Some? ==> c.value.cacheRead == cost.cacheRead)
  {
    if cost.input.None? || !ValidCost(cost.input.value) then None
    else if cost.output.Some? && !ValidCost(cost.output.value) then None
    else if cost.input.value.r == 0.0 && cost.output.Some? && cost.output.value.r > 0.0 then None
    else Some(Candidate(provider, cost.input.value.r, cost.output,
                        if cost.cacheRead.Some? && ValidCost(cost.cacheRead.value) then cost.cacheRead else None))
  }

  /** The order of sort.Strings. */
  predicate Less(a: string, b: string) {
    b != [] && (a == [] || a[0] < b[0] || (a[0] == b[0] && Less(a[1..], b[1..])))
  }

  predicate Replaces(current: Candidate, next: Candidate) {
    if (current.input > 0.0) != (next.input > 0.0) then next.input > 0.0
    else if next.input > 0.0 && !NearlyEqual(Fin(next.input), Fin(current.input)) then next.input < current.input
    else Less(next.provider, current.provider)
  }

  // ----- The order on names -----

  lemma {:induction false} LessTrichotomy(a: string, b: string)
    ensures !(Less(a, b) && Less(b, a)) && !(a == b && Less(a, b)) && (a == b || Less(a, b) || Less(b, a))
    decreases |a|
  {
    if a != [] && b != [] {
      LessTrichotomy(a[1..], b[1..]);
      if a[0] == b[0] && a[1..] == b[1..] { assert a == [a[0]] + a[1..] == b; }
    }
  }

  lemma {:induction false} LessTransitive(a: string, b: string, c: string)
    requires Less(a, b) && Less(b, c)
    ensures Less(a, c)
    decreases |a|
  {
    if a != [] && a[0] == b[0] && b[0] == c[0] {
      LessTransitive(a[1..], b[1..], c[1..]);
    }
  }

  /** The order is that of the first difference: a beginning comes before what it begins, and
      else the smaller character decides. */
  lemma {:induction false} LessIff(a: string, b: string)
    ensures Less(a, b) <==> exists k | 0 <= k <= |a| && k <= |b| ::
              a[..k] == b[..k] && (if k < |a| then k < |b| && a[k] < b[k] else k < |b|)
    decreases |a|
  {
    if a == [] {
      assert a[..0] == b[..0];
    } else if b != [] && a[0] == b[0] {
      LessIff(a[1..], b[1..]);
      if Less(a[1..], b[1..]) {
        var k :| 0 <= k <= |a| - 1 && k <= |b| - 1 && a[1..][..k] == b[1..][..k]
              && (if k < |a| - 1 then k < |b| - 1 && a[1..][k] < b[1..][k] else k < |b| - 1);
        assert a[..k + 1] == [a[0]] + a[1..][..k] && b[..k + 1] == [b[0]] + b[1..][..k];
      }
      if k :| 0 <= k <= |a| && k <= |b| && a[..k] == b[..k] && (if k < |a| then k < |b| && a[k] < b[k] else k < |b|) {
        assert a[1..][..k - 1] == a[..k][1..] && b[1..][..k - 1] == b[..k][1..];
      }
    } else {
      assert a[..0] == b[..0];
      if k :| 0 <= k <= |a| && k <= |b| && a[..k] == b[..k] && (if k < |a| then k < |b| && a[k] < b[k] else k < |b|) {
        if k > 0 { assert a[..k][0] == b[..k][0]; }
      }
    }
  }

  predicate Ascending(names: seq<string>) {
    forall i, j | 0 <= i < j < |names| :: Less(names[i], names[j])
  }

  ghost predicate Lists(names: seq<string>, keys: set<string>) {
    Ascending(names) && forall k :: k in names <==> k in keys
  }

  /** sort.Strings over the keys of a map, taken out in any order. */
  method SortedKeys(keys: set<string>) returns (names: seq<string>)
    ensures Lists(names, keys)
  {
    names := [];
    var todo := keys;
    while todo != {}
      invariant todo <= keys && Ascending(names)
      invariant forall k :: k in names <==> k in keys && k !in todo
      decreases |todo|
    {
      var k :| k in todo;
      todo := todo - {k};
      var i := 0;
      while i < |names| && Less(names[i], k)
        invariant 0 <= i <= |names| && forall j | 0 <= j < i :: Less(names[j], k)
      {
        i := i + 1;
      }
      InsertAscending(names, k, i);
      names := names[..i] + [k] + names[i..];
    }
  }

  lemma InsertAscending(names: seq<string>, k: string, i: nat)
    requires Ascending(names) && i <= |names| && k !in names
    requires forall j | 0 <= j < i :: Less(names[j], k)
    requires i < |names| ==> !Less(names[i], k)
    ensures Ascending(names[..i] + [k] + names[i..])
    ensures forall x :: x in names[..i] + [k] + names[i..] <==> x in names || x == k
  {
    var names' := names[..i] + [k] + names[i..];
    forall j | i <= j < |names| ensures Less(k, names[j]) {
      LessTrichotomy(names[i], k);
      assert names[i] in names;
      if i < j { LessTransitive(k, names[i], names[j]); }
    }
    assert names == names[..i] + names[i..];
  }

  /** Only one ascending sequence has a given set of elements. */
  lemma {:induction false} AscendingUnique(a: seq<string>, b: seq<string>, keys: set<string>)
    requires Lists(a, keys) && Lists(b, keys)
    ensures a == b
    decreases |a|
  {
    assert keys == {} <==> a == [] by { if a != [] { assert a[0] in keys; } }
    assert keys == {} <==> b == [] by { if b != [] { assert b[0] in keys; } }
    if a != [] {
      FirstIsLeast(a, b[0], keys);
      FirstIsLeast(b, a[0], keys);
      LessTrichotomy(a[0], b[0]);
      var rest := keys - {a[0]};
      TailLists(a, keys);
      TailLists(b, keys);
      AscendingUnique(a[1..], b[1..], rest);
      assert a == [a[0]] + a[1..] && b == [b[0]] + b[1..];
    }
  }

  lemma FirstIsLeast(a: seq<string>, k: string, keys: set<string>)
    requires Lists(a, keys) && k in keys
    ensures a != [] && (a[0] == k || Less(a[0], k))
  {
    assert k in a;
  }

  lemma TailLists(a: seq<string>, keys: set<string>)
    requires Lists(a, keys) && a != []
    ensures Lists(a[1..], keys - {a[0]})
  {
    forall k ensures k in a[1..] <==> k in keys - {a[0]} {
      assert a == [a[0]] + a[1..];
      if k == a[0] && k in a[1..] {
        var i :| 0 <= i < |a| - 1 && a[1..][i] == k;
        LessTrichotomy(a[0], a[i + 1]);
      }
    }
  }

  // ----- The choice -----

  function Offer(feed: Feed, provider: string, m: string): Option<Candidate> {
    if provider in feed && m in feed[provider] then Build(provider, feed[provider][m]) else None
  }

  function Better(current: Option<Candidate>, next: Option<Candidate>): Option<Candidate> {
    if next.None? then current
    else if current.None? || Replaces(current.value, next.value) then next
    else current
  }

  function Choice(feed: Feed, providers: seq<string>, m: string): Option<Candidate> {
    if providers == [] then None
    else Better(Choice(feed, providers[..|providers| - 1], m), Offer(feed, providers[|providers| - 1], m))
  }

  function Chosen(selected: map<string, Candidate>, m: string): Option<Candidate> {
    if m in selected then Some(selected[m]) else None
  }

  /** One provider's models folded into the selection. */
  method AddProvider(feed: Feed, provider: string, selected: map<string, Candidate>)
    returns (selected': map<string, Candidate>)
    requires provider in feed
    ensures forall m :: Chosen(selected', m) == Better(Chosen(selected, m), Offer(feed, provider, m))
  {
    selected' := selected;
    var models := feed[provider];
    var names := SortedKeys(models.Keys);
    for i := 0 to |names|
      invariant forall m | m in names[..i] ::
        Chosen(selected', m) == Better(Chosen(selected, m), Offer(feed, provider, m))
      invariant forall m | m !in names[..i] :: Chosen(selected', m) == Chosen(selected, m)
    {
      var m := names[i];
      assert m in names;
      assert m !in names[..i] by {
        if m in names[..i] {
          var j :| 0 <= j < i && names[j] == m;
          LessTrichotomy(names[j], names[i]);
        }
      }
      assert names[..i + 1] == names[..i] + [m];
      var candidate := Build(provider, models[m]);
      if candidate.None? { continue; }
      if m !in selected' || Replaces(selected'[m], candidate.value) {
        selected' := selected'[m := candidate.value];
      }
    }
    assert names[..|names|] == names;
  }

  /** The selection loop of convertModelsDevToRatioData. Whatever order the maps are iterated
      in, every model ends with the choice over the providers in ascending order. */
  method Select(feed: Feed) returns (selected: map<string, Candidate>)
    ensures forall providers, m | Lists(providers, feed.Keys) :: Chosen(selected, m) == Choice(feed, providers, m)
  {
    selected := map[];
    var providers := SortedKeys(feed.Keys);
    for i := 0 to |providers|
      invariant forall m :: Chosen(selected, m) == Choice(feed, providers[..i], m)
    {
      assert providers[i] in providers;
      assert providers[..i + 1][..i] == providers[..i];
      ghost var before := selected;
      selected := AddProvider(feed, providers[i], selected);
      forall m ensures Chosen(selected, m) == Choice(feed, providers[..i + 1], m) {
        assert Chosen(before, m) == Choice(feed, providers[..i], m);
      }
    }
    assert providers[..|providers|] == providers;
    forall names, m | Lists(names, feed.Keys) ensures Chosen(selected, m) == Choice(feed, names, m) {
      AscendingUnique(names, providers, feed.Keys);
    }
  }

  /** What the choice over the given providers guarantees about model m. */
  ghost predicate Cheapest(feed: Feed, providers: seq<string>, m: string, choice: Option<Candidate>) {
    && (choice.Some? <==> exists p | p in providers :: Offer(feed, p, m).Some?)
    && (choice.Some? ==> choice.value.provider in providers && Offer(feed, choice.value.provider, m) == choice)
    && (forall p | p in providers && Offer(feed, p, m).Some? && Offer(feed, p, m).value.input > 0.0 ::
          choice.Some? && choice.value.input > 0.0
          && choice.value.input < Offer(feed, p, m).value.input + 0.000000001)
    && (forall p | choice.Some? && choice.value.input == 0.0 && p in providers && Offer(feed, p, m).Some? ::
          p == choice.value.provider || Less(choice.value.provider, p))
  }

  /** For every model: a price is chosen exactly when some provider offers a valid one; it is
      one of the offers; if any offer is not free, the choice is not free and less than 1e-9
      above the cheapest such offer; and if all are free it is the first provider's. */
  lemma {:induction false} ChoiceIsCheapest(feed: Feed, providers: seq<string>, m: string)
    requires Ascending(providers)
    ensures Cheapest(feed, providers, m, Choice(feed, providers, m))
    decreases |providers|
  {
    if providers != [] {
      var before := providers[..|providers| - 1];
      var p := providers[|providers| - 1];
      ChoiceIsCheapest(feed, before, m);
      var current, next := Choice(feed, before, m), Offer(feed, p, m);
      assert forall q :: q in providers <==> q in before || q == p;
      if current.Some? {
        assert Less(current.value.provider, p);
        LessTrichotomy(current.value.provider, p);
      }
      forall q | q in before ensures Less(q, p) { }
    }
  }

  /** The chosen price is what its provider lists for the model. */
  lemma ChosenIsListed(feed: Feed, providers: seq<string>, m: string)
    requires Ascending(providers) && Choice(feed, providers, m).Some?
    ensures var c := Choice(feed, providers, m).value;
      && c.provider in providers && c.provider in feed && m in feed[c.provider]
      && feed[c.provider][m].input == Some(Fin(c.input)) && feed[c.provider][m].output == c.output
  {
    ChoiceIsCheapest(feed, providers, m);
  }
}

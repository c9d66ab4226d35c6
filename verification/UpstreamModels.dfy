/** Detecting which models an upstream added or dropped, and applying an operator's
    selection: the list algebra, the stored row, and the law that the two commute. */
module UpstreamModels {
  import opened Text

  const COMMA := ','
  const REGEX := "regex:"

  // ----- Normalised name lists -----

  predicate Plain(x: string) { x != [] && Bare(x, IsSpace) }

  function Clean(names: seq<string>): seq<string> {
    if names == [] then []
    else
      var r := Clean(names[..|names| - 1]);
      var t := TrimSpace(names[|names| - 1]);
      if t == [] then r else r + [t]
  }

  function Uniq(names: seq<string>): seq<string> {
    if names == [] then []
    else
      var r := Uniq(names[..|names| - 1]);
      if names[|names| - 1] in r then r else r + [names[|names| - 1]]
  }

  lemma {:induction false} CleanPlain(names: seq<string>)
    ensures forall x | x in Clean(names) :: Plain(x)
    decreases |names|
  {
    if names != [] {
      CleanPlain(names[..|names| - 1]);
      TrimBare(names[|names| - 1], IsSpace);
    }
  }

  lemma {:induction false} UniqFacts(names: seq<string>)
    ensures Distinct(Uniq(names)) && forall x :: x in Uniq(names) <==> x in names
    decreases |names|
  {
    if names != [] {
      UniqFacts(names[..|names| - 1]);
      assert names == names[..|names| - 1] + [names[|names| - 1]];
    }
  }

  function Normalize(names: seq<string>): seq<string> { Uniq(Clean(names)) }

  /** What a normalised list looks like: trimmed, non-empty, no repeats. */
  ghost predicate Normal(names: seq<string>) {
    Distinct(names) && forall x | x in names :: Plain(x)
  }

  lemma NormalizeNormal(names: seq<string>)
    ensures Normal(Normalize(names))
  {
    CleanPlain(names);
    UniqFacts(Clean(names));
  }

  lemma CleanPush(names: seq<string>, n: string)
    ensures Clean(names + [n]) == Clean(names) + (if TrimSpace(n) == [] then [] else [TrimSpace(n)])
  {
    assert (names + [n])[..|names + [n]| - 1] == names;
  }

  lemma NormalizePush(names: seq<string>, n: string)
    ensures Normalize(names + [n])
            == var r, t := Normalize(names), TrimSpace(n); if t == [] || t in r then r else r + [t]
  {
    CleanPush(names, n);
    if TrimSpace(n) != [] {
      var clean := Clean(names + [n]);
      assert clean[..|clean| - 1] == Clean(names);
    }
  }

  /** Normalising keeps exactly the trimmed names that are not empty, once each, in the order
      in which they first occur. */
  lemma {:induction false} NormalizeIs(names: seq<string>)
    ensures FirstOccurrences(names, {}, Normalize(names))
    decreases |names|
  {
    if names != [] {
      var before, n := names[..|names| - 1], names[|names| - 1];
      NormalizeIs(before);
      assert names == before + [n];
      NormalizePush(before, n);
      FirstOccurrencesPush(before, {}, Normalize(before), n);
    }
  }

  lemma {:induction false} NormalizeFixes(names: seq<string>)
    requires Normal(names)
    ensures Normalize(names) == names
    decreases |names|
  {
    CleanFixes(names);
    UniqFixes(names);
  }

  lemma {:induction false} CleanFixes(names: seq<string>)
    requires forall x | x in names :: Plain(x)
    ensures Clean(names) == names
    decreases |names|
  {
    if names != [] {
      forall x | x in names[..|names| - 1] ensures Plain(x) {
        assert x in names;
      }
      CleanFixes(names[..|names| - 1]);
      assert names[|names| - 1] in names;
      TrimBare(names[|names| - 1], IsSpace);
    }
  }

  lemma {:induction false} UniqFixes(names: seq<string>)
    requires Distinct(names)
    ensures Uniq(names) == names
    decreases |names|
  {
    if names != [] {
      UniqFixes(names[..|names| - 1]);
    }
  }

  function NotIn(ys: seq<string>): string -> bool { x => x !in ys }

  function In(ys: seq<string>): string -> bool { x => x in ys }

  function Without(xs: seq<string>, ys: seq<string>): seq<string> { Filter(xs, NotIn(ys)) }

  function Within(xs: seq<string>, ys: seq<string>): seq<string> { Filter(xs, In(ys)) }

  function Subtract(base: seq<string>, removed: seq<string>): seq<string> {
    Without(Normalize(base), Normalize(removed))
  }

  function Intersect(base: seq<string>, allowed: seq<string>): seq<string> {
    Within(Normalize(base), Normalize(allowed))
  }

  function Merge(base: seq<string>, appended: seq<string>): seq<string> {
    Normalize(base) + Without(Normalize(appended), Normalize(base))
  }

  /** mergeModelNames: one pass over the appended names with a set of names seen. */
  method MergeModelNames(base: seq<string>, appended: seq<string>) returns (merged: seq<string>)
    ensures merged == Merge(base, appended)
  {
    merged := Normalize(base);
    var seen := set x | x in merged;
    var extra := Normalize(appended);
    NormalizeNormal(appended);
    for i := 0 to |extra|
      invariant merged == Normalize(base) + Without(extra[..i], Normalize(base))
      invariant seen == set x | x in merged
    {
      assert extra[..i + 1][..i] == extra[..i];
      if extra[i] in seen {
        assert extra[i] !in extra[..i];
        continue;
      }
      seen := seen + {extra[i]};
      merged := merged + [extra[i]];
    }
    assert extra[..|extra|] == extra;
  }

  /** Adding wins when a model is selected both for adding and for removing. */
  function ApplySelected(origin: seq<string>, add: seq<string>, remove: seq<string>): seq<string> {
    var add' := Normalize(add);
    Subtract(Merge(origin, add'), Subtract(Normalize(remove), add'))
  }

  lemma MergeNormal(base: seq<string>, appended: seq<string>)
    ensures Normal(Merge(base, appended))
    ensures forall x :: x in Merge(base, appended) <==> x in Normalize(base) || x in Normalize(appended)
  {
    NormalizeNormal(base);
    NormalizeNormal(appended);
    var base' := Normalize(base);
    var extra := Without(Normalize(appended), base');
    FilterDistinct(Normalize(appended), NotIn(base'));
    forall i, j | 0 <= i < j < |base' + extra| ensures (base' + extra)[i] != (base' + extra)[j] {
      if i < |base'| <= j { assert extra[j - |base'|] in extra; }
    }
  }

  /** applySelectedModelChanges: the result is normalised and holds exactly the added names and
      the original names that were not removed; adding wins over removing. */
  lemma ApplySelectedMembers(origin: seq<string>, add: seq<string>, remove: seq<string>)
    ensures Normal(ApplySelected(origin, add, remove))
    ensures forall x :: x in ApplySelected(origin, add, remove) <==>
              x in Normalize(add) || (x in Normalize(origin) && x !in Normalize(remove))
  {
    var add', remove' := Normalize(add), Normalize(remove);
    NormalizeNormal(add);
    NormalizeNormal(remove);
    NormalizeFixes(add');
    NormalizeFixes(remove');
    var drop := Subtract(remove', add');
    FilterNormal(remove', NotIn(add'));
    NormalizeFixes(drop);
    MergeNormal(origin, add');
    var merged := Merge(origin, add');
    NormalizeFixes(merged);
    FilterNormal(merged, NotIn(drop));
  }

  lemma FilterNormal(xs: seq<string>, keep: string -> bool)
    requires Normal(xs)
    ensures Normal(Filter(xs, keep))
  {
    FilterDistinct(xs, keep);
  }

  // ----- Detection -----

  /** The upstream's answer, the channel's model redirects, and the regular-expression
      engine: `matches(body, name)` holds when body compiles and matches name. */
  datatype Env = Env(upstream: seq<string>, redirects: map<string, string>, matches: (string, string) -> bool)

  predicate IsPattern(entry: string) { REGEX <= entry }

  predicate Hits(env: Env, entry: string, name: string) {
    if IsPattern(entry) then env.matches(TrimSpace(entry[|REGEX|..]), name) else entry == name
  }

  predicate Ignored(env: Env, ignored: seq<string>, name: string) {
    exists e | e in ignored :: Hits(env, e, name)
  }

  predicate Covered(env: Env, local: seq<string>, name: string) {
    name in local || name in env.redirects.Values
  }

  /** Offered upstream, not covered locally, not ignored; both lists normalised. */
  function New(env: Env, local: seq<string>, ignored: seq<string>): string -> bool {
    m => !Covered(env, local, m) && !Ignored(env, ignored, m)
  }

  /** Neither a redirect source nor offered upstream. */
  function Gone(env: Env): string -> bool {
    m => m !in env.redirects && m !in Normalize(env.upstream)
  }

  function PendingAdd(env: Env, local: seq<string>, ignored: seq<string>): seq<string> {
    Normalize(Filter(Normalize(env.upstream), New(env, Normalize(local), Normalize(ignored))))
  }

  function PendingRemove(env: Env, local: seq<string>): seq<string> {
    Normalize(Filter(Normalize(local), Gone(env)))
  }

  // ----- The stored row -----

  datatype Row = Row(models: string, ignored: seq<string>, detected: seq<string>, removed: seq<string>,
                     lastCheck: int, autoSync: bool)

  function GetModels(models: string): seq<string> {
    if models == [] then [] else Split(Trim(models, c => c == COMMA), COMMA)
  }

  datatype Selection = Selection(add: seq<string>, ignore: seq<string>, remove: seq<string>)

  function SelectedAdds(row: Row, sel: Selection): seq<string> { Intersect(sel.add, Normalize(row.detected)) }

  function SelectedIgnores(row: Row, sel: Selection): seq<string> { Intersect(sel.ignore, Normalize(row.detected)) }

  function SelectedRemoves(row: Row, sel: Selection): seq<string> {
    Subtract(Intersect(sel.remove, Normalize(row.removed)), SelectedAdds(row, sel))
  }

  function NextModels(row: Row, sel: Selection): seq<string> {
    ApplySelected(Normalize(GetModels(row.models)), SelectedAdds(row, sel), SelectedRemoves(row, sel))
  }

  function NextIgnored(row: Row, sel: Selection): seq<string> {
    var merged := Merge(row.ignored, SelectedIgnores(row, sel));
    var add := SelectedAdds(row, sel);
    if |add| > 0 then Subtract(merged, add) else merged
  }

  function Applied(row: Row, sel: Selection, now: int): Row {
    var next := NextModels(row, sel);
    var add, ignore := SelectedAdds(row, sel), SelectedIgnores(row, sel);
    Row(if Normalize(GetModels(row.models)) != next then Join(next, COMMA) else row.models,
        NextIgnored(row, sel),
        Subtract(Normalize(row.detected), add + ignore),
        Subtract(Normalize(row.removed), SelectedRemoves(row, sel)),
        now, row.autoSync)
  }

  function Checked(env: Env, row: Row, now: int, allowAuto: bool): Row {
    var add := PendingAdd(env, GetModels(row.models), row.ignored);
    var remove := PendingRemove(env, GetModels(row.models));
    var origin := Normalize(GetModels(row.models));
    if allowAuto && row.autoSync && |add| > 0 then
      var merged := Merge(origin, add);
      row.(models := if |merged| > |origin| then Join(merged, COMMA) else row.models,
           detected := [], removed := remove, lastCheck := now)
    else row.(detected := add, removed := remove, lastCheck := now)
  }

  // ----- What the lists of a row satisfy -----

  lemma PendingAddFacts(env: Env, local: seq<string>, ignored: seq<string>)
    ensures var add := PendingAdd(env, local, ignored);
      Normal(add) && add == Filter(Normalize(env.upstream), New(env, Normalize(local), Normalize(ignored)))
  {
    NormalizeNormal(env.upstream);
    FilterNormal(Normalize(env.upstream), New(env, Normalize(local), Normalize(ignored)));
    NormalizeFixes(Filter(Normalize(env.upstream), New(env, Normalize(local), Normalize(ignored))));
  }

  lemma PendingRemoveFacts(env: Env, local: seq<string>)
    ensures var remove := PendingRemove(env, local);
      Normal(remove) && remove == Filter(Normalize(local), Gone(env))
  {
    NormalizeNormal(local);
    FilterNormal(Normalize(local), Gone(env));
    NormalizeFixes(Filter(Normalize(local), Gone(env)));
  }

  /** What detection finds: to add, every offered name that is not among the local ones, no
      redirect target, and neither on the ignore list nor matched by a pattern on it; to
      remove, every local name that is neither offered nor the source of a redirect. */
  lemma PendingIs(env: Env, local: seq<string>, ignored: seq<string>, m: string)
    ensures m in PendingAdd(env, local, ignored) <==>
            && m in Normalize(env.upstream) && m !in Normalize(local)
            && (forall source | source in env.redirects :: env.redirects[source] != m)
            && (forall e | e in Normalize(ignored) ::
                  if |e| >= 6 && e[..6] == "regex:" then !env.matches(TrimSpace(e[6..]), m) else e != m)
    ensures m in PendingRemove(env, local) <==>
            m in Normalize(local) && m !in env.redirects && m !in Normalize(env.upstream)
  {
    PendingAddFacts(env, local, ignored);
    PendingRemoveFacts(env, local);
    forall e ensures |e| >= 6 && e[..6] == "regex:" <==> IsPattern(e) { }
    if m in PendingAdd(env, local, ignored) {
      forall e | e in Normalize(ignored)
        ensures if |e| >= 6 && e[..6] == "regex:" then !env.matches(TrimSpace(e[6..]), m) else e != m
      {
        assert !Hits(env, e, m);
      }
    }
  }

  /** Pending additions are new to the channel, so merging them just appends them. */
  lemma MergeAppends(base: seq<string>, extra: seq<string>)
    requires Normal(base) && Normal(extra) && forall x | x in extra :: x !in base
    ensures Merge(base, extra) == base + extra && Normal(base + extra)
  {
    NormalizeFixes(base);
    NormalizeFixes(extra);
    FilterAll(extra, NotIn(base));
    MergeNormal(base, extra);
  }

  lemma AddsAreNew(env: Env, row: Row)
    ensures var origin := Normalize(GetModels(row.models));
      var add := PendingAdd(env, GetModels(row.models), row.ignored);
      Merge(origin, add) == origin + add && Normal(origin + add)
  {
    NormalizeNormal(GetModels(row.models));
    PendingAddFacts(env, GetModels(row.models), row.ignored);
    MergeAppends(Normalize(GetModels(row.models)), PendingAdd(env, GetModels(row.models), row.ignored));
  }

  lemma {:induction false} CleanKeepsOut(names: seq<string>, c: char)
    requires forall x | x in names :: c !in x
    ensures forall x | x in Clean(names) :: c !in x
    decreases |names|
  {
    if names != [] {
      assert forall x | x in names[..|names| - 1] :: x in names;
      assert names[|names| - 1] in names;
      CleanKeepsOut(names[..|names| - 1], c);
      TrimKeepsOut(names[|names| - 1], c);
    }
  }

  /** Names read back from a stored list never hold a comma. */
  lemma StoredCommaFree(models: string)
    ensures forall x | x in Normalize(GetModels(models)) :: COMMA !in x
  {
    CleanKeepsOut(GetModels(models), COMMA);
    UniqFacts(Clean(GetModels(models)));
  }

  /** Storing a normalised, comma-free list and reading it back changes nothing. */
  lemma StoreRoundTrip(names: seq<string>)
    requires Normal(names) && forall x | x in names :: COMMA !in x
    ensures Normalize(GetModels(Join(names, COMMA))) == names
  {
    if names != [] {
      assert names[0] in names && names[|names| - 1] in names;
      JoinBare(names, COMMA);
      TrimBare(Join(names, COMMA), c => c == COMMA);
      SplitJoin(names, COMMA);
      NormalizeFixes(names);
    }
  }

  class Channel {
    var row: Row   // the persisted row

    constructor (row: Row)
      ensures this.row == row
    {
      this.row := row;
    }

    /** checkAndPersistChannelUpstreamModelUpdates. `fetched`, `saved` and `rebuilt` are the
        answers of the upstream, of the database, and of the ability index, which is rebuilt
        after the models were saved; `minInterval` is the configured pause. */
    method CheckAndPersist(env: Env, now: int, minInterval: int, force: bool, allowAuto: bool,
                           fetched: bool, saved: bool, rebuilt: bool)
      returns (modelsChanged: bool, autoAdded: nat, ok: bool)
      modifies this
      ensures var skip := !force && old(row.lastCheck) > 0 && now - old(row.lastCheck) < minInterval;
        && row == (if skip || !saved then old(row)
                   else if !fetched then old(row).(lastCheck := now)
                   else Checked(env, old(row), now, allowAuto))
        && ok == (skip || (saved && fetched && (rebuilt || !modelsChanged)))
        && autoAdded == (if skip || !fetched || !(allowAuto && old(row).autoSync) then 0
             else |PendingAdd(env, GetModels(old(row).models), old(row).ignored)|)
        && modelsChanged == (autoAdded > 0 && saved)
    {
      if !force && row.lastCheck > 0 && now - row.lastCheck < minInterval {
        return false, 0, true;
      }
      if !fetched {
        if saved { row := row.(lastCheck := now); }
        return false, 0, false;
      }
      var next := row;
      var add := PendingAdd(env, GetModels(row.models), row.ignored);
      var remove := PendingRemove(env, GetModels(row.models));
      modelsChanged, autoAdded := false, 0;
      if allowAuto && row.autoSync && |add| > 0 {
        var origin := Normalize(GetModels(row.models));
        var merged := MergeModelNames(origin, add);
        AddsAreNew(env, row);
        if |merged| > |origin| {
          next := next.(models := Join(merged, COMMA));
          autoAdded := |merged| - |origin|;
          modelsChanged := true;
        }
        next := next.(detected := []);
      } else {
        next := next.(detected := add);
      }
      next := next.(removed := remove, lastCheck := now);
      if !saved {
        return false, autoAdded, false;
      }
      row := next;
      ok := !modelsChanged || rebuilt;
    }

    /** applyChannelUpstreamModelUpdates: the operator's selection is cut down to what was
        staged, then models, ignore list and both staged lists change together. */
    method Apply(sel: Selection, now: int, saved: bool, rebuilt: bool)
      returns (added: seq<string>, removed: seq<string>, remaining: seq<string>, remainingRemoves: seq<string>,
               modelsChanged: bool, ok: bool)
      modifies this
      ensures row == if saved then Applied(old(row), sel, now) else old(row)
      ensures saved ==> added == SelectedAdds(old(row), sel) && removed == SelectedRemoves(old(row), sel)
      ensures saved ==> remaining == row.detected && remainingRemoves == row.removed
      ensures saved ==> (modelsChanged <==> Normalize(GetModels(old(row).models)) != NextModels(old(row), sel))
      ensures !saved ==> added == removed == remaining == remainingRemoves == [] && !modelsChanged
      ensures ok == (saved && (rebuilt || !modelsChanged))
    {
      var pendingAdd, pendingRemove := Normalize(row.detected), Normalize(row.removed);
      var add := Intersect(sel.add, pendingAdd);
      var ignore := Intersect(sel.ignore, pendingAdd);
      var remove := Intersect(sel.remove, pendingRemove);
      remove := Subtract(remove, add);
      var origin := Normalize(GetModels(row.models));
      var nextModels := ApplySelected(origin, add, remove);
      modelsChanged := origin != nextModels;
      var next := row;
      if modelsChanged {
        next := next.(models := Join(nextModels, COMMA));
      }
      var ignored := MergeModelNames(row.ignored, ignore);
      if |add| > 0 {
        ignored := Subtract(ignored, add);
      }
      next := next.(ignored := ignored,
                    detected := Subtract(pendingAdd, add + ignore),
                    removed := Subtract(pendingRemove, remove),
                    lastCheck := now);
      if !saved {
        return [], [], [], [], false, false;
      }
      row := next;
      return add, remove, next.detected, next.removed, modelsChanged, !modelsChanged || rebuilt;
    }
  }

  /** What a check stores: the lists detection finds - or, with automatic sync and something to
      add, the additions at the end of the models and none staged. */
  lemma CheckedIs(env: Env, row: Row, now: int, allowAuto: bool)
    ensures var row' := Checked(env, row, now, allowAuto);
      var local, add := Normalize(GetModels(row.models)), PendingAdd(env, GetModels(row.models), row.ignored);
      var sync := allowAuto && row.autoSync && add != [];
      && row'.models == (if sync then Join(local + add, ',') else row.models)
      && row'.detected == (if sync then [] else add)
      && row'.removed == PendingRemove(env, GetModels(row.models))
      && row'.ignored == row.ignored && row'.autoSync == row.autoSync && row'.lastCheck == now
  {
    AddsAreNew(env, row);
  }

  /** What applying a selection leaves, name by name, for any stored row. A name is added if it
      was selected and pending, ignored likewise, and removed if it was selected, pending for
      removal, and not added. */
  lemma AppliedIs(row: Row, sel: Selection, now: int, x: string)
    ensures var row' := Applied(row, sel, now);
      var added := x in Normalize(sel.add) && x in Normalize(row.detected);
      var ignored := x in Normalize(sel.ignore) && x in Normalize(row.detected);
      var removed := x in Normalize(sel.remove) && x in Normalize(row.removed) && !added;
      && (x in NextModels(row, sel) <==> added || (x in Normalize(GetModels(row.models)) && !removed))
      && row'.models == (if NextModels(row, sel) == Normalize(GetModels(row.models)) then row.models
                         else Join(NextModels(row, sel), ','))
      && (x in row'.ignored <==> (x in Normalize(row.ignored) || ignored) && !added)
      && (x in row'.detected <==> x in Normalize(row.detected) && !added && !ignored)
      && (x in row'.removed <==> x in Normalize(row.removed) && !removed)
      && row'.lastCheck == now && row'.autoSync == row.autoSync
  {
    var add, ignore, remove := SelectedAdds(row, sel), SelectedIgnores(row, sel), SelectedRemoves(row, sel);
    SelectedAre(row, sel);
    var local := Normalize(GetModels(row.models));
    NormalizeNormal(GetModels(row.models));
    NormalizeNormal(row.detected);
    NormalizeNormal(row.removed);
    NormalizeFixes(local);
    NormalizeFixes(add);
    NormalizeFixes(ignore);
    NormalizeFixes(remove);
    NormalizeFixes(Normalize(row.detected));
    NormalizeFixes(Normalize(row.removed));
    ApplySelectedMembers(local, add, remove);
    MergeNormal(row.ignored, ignore);
    NormalizeFixes(Merge(row.ignored, ignore));
    CleanFixes(add + ignore);
    UniqFacts(add + ignore);
  }

  lemma SelectedAre(row: Row, sel: Selection)
    ensures var add, ignore, remove := SelectedAdds(row, sel), SelectedIgnores(row, sel), SelectedRemoves(row, sel);
      && Normal(add) && Normal(ignore) && Normal(remove)
      && (forall x :: x in add <==> x in Normalize(sel.add) && x in Normalize(row.detected))
      && (forall x :: x in ignore <==> x in Normalize(sel.ignore) && x in Normalize(row.detected))
      && (forall x :: x in remove <==> x in Normalize(sel.remove) && x in Normalize(row.removed) && x !in add)
  {
    NormalizeNormal(row.detected);
    NormalizeNormal(row.removed);
    NormalizeFixes(Normalize(row.detected));
    NormalizeFixes(Normalize(row.removed));
    NormalizeNormal(sel.add);
    NormalizeNormal(sel.ignore);
    NormalizeNormal(sel.remove);
    var staged, dropped := Normalize(row.detected), Normalize(row.removed);
    FilterNormal(Normalize(sel.add), In(staged));
    FilterNormal(Normalize(sel.ignore), In(staged));
    FilterNormal(Normalize(sel.remove), In(dropped));
    var add, some := SelectedAdds(row, sel), Intersect(sel.remove, Normalize(row.removed));
    NormalizeFixes(add);
    NormalizeFixes(some);
    FilterNormal(some, NotIn(add));
  }

  // ----- Detect and apply commute -----

  /** The staged lists are what detection finds for this row now. */
  ghost predicate Fresh(env: Env, row: Row) {
    && row.detected == PendingAdd(env, GetModels(row.models), row.ignored)
    && row.removed == PendingRemove(env, GetModels(row.models))
  }

  /** A check without auto-sync stages fresh lists. */
  lemma CheckedIsFresh(env: Env, row: Row, now: int, allowAuto: bool)
    requires !(allowAuto && row.autoSync)
    ensures Fresh(env, Checked(env, row, now, allowAuto))
  {
  }

  /** The selections, cut down to what was staged, in set terms. */
  lemma SelectionFacts(env: Env, row: Row, sel: Selection)
    requires Fresh(env, row)
    ensures var up, local := Normalize(env.upstream), Normalize(GetModels(row.models));
      var add, ignore, remove := SelectedAdds(row, sel), SelectedIgnores(row, sel), SelectedRemoves(row, sel);
      && Normal(add) && Normal(ignore) && Normal(remove)
      && (forall x | x in add :: x in up && x !in local && x in row.detected)
      && (forall x | x in ignore :: x in row.detected)
      && (forall x | x in remove :: x in row.removed && x !in up)
      && Normalize(row.detected) == row.detected && Normalize(row.removed) == row.removed
  {
    var local := GetModels(row.models);
    PendingAddFacts(env, local, row.ignored);
    PendingRemoveFacts(env, local);
    NormalizeFixes(row.detected);
    NormalizeFixes(row.removed);
    NormalizeNormal(sel.add);
    NormalizeNormal(sel.ignore);
    NormalizeNormal(sel.remove);
    var staged := Normalize(Normalize(row.detected));
    FilterNormal(Normalize(sel.add), In(staged));
    FilterNormal(Normalize(sel.ignore), In(staged));
    var staged' := Normalize(Normalize(row.removed));
    FilterNormal(Normalize(sel.remove), In(staged'));
    var remove := Intersect(sel.remove, Normalize(row.removed));
    NormalizeFixes(remove);
    var add' := Normalize(SelectedAdds(row, sel));
    FilterNormal(remove, NotIn(add'));
  }

  /** The next model list: the old one with the selected adds at the end, minus the removes. */
  lemma NextModelsFacts(env: Env, row: Row, sel: Selection)
    requires Fresh(env, row)
    ensures var local := Normalize(GetModels(row.models));
      var add, remove := SelectedAdds(row, sel), SelectedRemoves(row, sel);
      && NextModels(row, sel) == Without(local + add, remove)
      && Normal(NextModels(row, sel))
  {
    var local := Normalize(GetModels(row.models));
    var add, remove := SelectedAdds(row, sel), SelectedRemoves(row, sel);
    SelectionFacts(env, row, sel);
    NormalizeNormal(GetModels(row.models));
    NormalizeFixes(add);
    NormalizeFixes(remove);
    MergeAppends(local, add);
    NormalizeFixes(local + add);
    FilterAll(remove, NotIn(add));
    FilterNormal(local + add, NotIn(remove));
  }

  // ----- What the next list reads back as -----

  lemma {:induction false} CleanAppend(a: seq<string>, b: seq<string>)
    ensures Clean(a + b) == Clean(a) + Clean(b)
    decreases |b|
  {
    if b == [] {
      assert a + b == a;
    } else {
      CleanAppend(a, b[..|b| - 1]);
      assert (a + b)[..|a + b| - 1] == a + b[..|b| - 1];
    }
  }

  lemma CleanBlank()
    ensures Clean([[]]) == []
  {
    var blank: seq<string> := [[]];
    assert blank[..0] == [];
  }

  lemma WithoutPush(xs: seq<string>, x: string, ys: seq<string>)
    ensures Without(xs + [x], ys) == if x in ys then Without(xs, ys) else Without(xs, ys) + [x]
  {
    FilterAppend(xs, [x], NotIn(ys));
    assert [x][..0] == [];
  }

  function Push(xs: seq<string>, x: string): seq<string> { if x in xs then xs else xs + [x] }

  lemma UniqPush(xs: seq<string>, x: string)
    ensures Uniq(xs + [x]) == Push(Uniq(xs), x)
  {
    assert (xs + [x])[..|xs + [x]| - 1] == xs;
  }

  lemma PushWithout(a: seq<string>, xs: seq<string>, ys: seq<string>, x: string)
    requires x in a <==> x in ys
    ensures Push(a + Without(xs, ys), x) == a + Without(Push(xs, x), ys)
  {
    WithoutPush(xs, x, ys);
  }

  lemma {:induction false} UniqAppend(a: seq<string>, b: seq<string>)
    ensures Uniq(a + b) == Uniq(a) + Without(Uniq(b), a)
    decreases |b|
  {
    if b == [] {
      assert a + b == a;
    } else {
      var b', x := b[..|b| - 1], b[|b| - 1];
      UniqAppend(a, b');
      assert a + b == (a + b') + [x] && b == b' + [x];
      UniqPush(a + b', x);
      UniqPush(b', x);
      assert x in Uniq(a) <==> x in a by { UniqFacts(a); }
      PushWithout(Uniq(a), Uniq(b'), a, x);
    }
  }

  lemma {:induction false} TrimLeftPieces(s: string)
    ensures Clean(Split(TrimLeft(s, c => c == COMMA), COMMA)) == Clean(Split(s, COMMA))
    decreases |s|
  {
    if s != [] && s[0] == COMMA {
      TrimLeftPieces(s[1..]);
      CleanAppend([[]], Split(s[1..], COMMA));
      CleanBlank();
    }
  }

  lemma CommaAtEnd(s: string)
    ensures Clean(Split(s + [COMMA], COMMA)) == Clean(Split(s, COMMA))
  {
    assert s + [COMMA] == s + [COMMA] + [];
    SplitAround(s, [], COMMA);
    CleanAppend(Split(s, COMMA), [[]]);
    CleanBlank();
  }

  lemma {:induction false} TrimRightPieces(s: string)
    ensures Clean(Split(TrimRight(s, c => c == COMMA), COMMA)) == Clean(Split(s, COMMA))
    decreases |s|
  {
    if s != [] && s[|s| - 1] == COMMA {
      var t := s[..|s| - 1];
      TrimRightPieces(t);
      assert s == t + [COMMA];
      CommaAtEnd(t);
    }
  }

  /** Commas at the ends of a stored list do not matter. */
  lemma StoredPieces(models: string)
    ensures Clean(GetModels(models)) == Clean(Split(models, COMMA))
  {
    if models == [] {
      CleanBlank();
    } else {
      TrimLeftPieces(models);
      TrimRightPieces(TrimLeft(models, c => c == COMMA));
    }
  }

  lemma JoinedPieces(a: seq<string>, b: seq<string>)
    ensures Clean(GetModels(Join(a + b, COMMA))) == Clean(GetModels(Join(a, COMMA))) + Clean(GetModels(Join(b, COMMA)))
  {
    StoredPieces(Join(a + b, COMMA));
    StoredPieces(Join(a, COMMA));
    StoredPieces(Join(b, COMMA));
    CleanBlank();
    if a == [] {
      assert a + b == b;
    } else if b == [] {
      assert a + b == a;
    } else {
      JoinAppend(a, b, COMMA);
      SplitAround(Join(a, COMMA), Join(b, COMMA), COMMA);
      CleanAppend(Split(Join(a, COMMA), COMMA), Split(Join(b, COMMA), COMMA));
    }
  }

  /** Storing `kept` and `added` together: a normalised, comma-free list comes back as it is,
      followed by what the others are stored as. */
  lemma JoinedReadBack(kept: seq<string>, added: seq<string>)
    requires Normal(kept) && forall x | x in kept :: COMMA !in x
    ensures Normalize(GetModels(Join(kept + added, COMMA)))
            == kept + Without(Normalize(GetModels(Join(added, COMMA))), kept)
  {
    JoinedPieces(kept, added);
    var pieces := Clean(GetModels(Join(kept, COMMA)));
    StoreRoundTrip(kept);
    UniqFacts(pieces);
    UniqAppend(pieces, Clean(GetModels(Join(added, COMMA))));
    var extra := Normalize(GetModels(Join(added, COMMA)));
    FilterAgree(extra, NotIn(pieces), NotIn(kept));
  }

  /** The model names the selected adds turn into when stored and read back. */
  function AddedAs(row: Row, sel: Selection): seq<string> {
    Normalize(GetModels(Join(SelectedAdds(row, sel), COMMA)))
  }

  /** The local models that are not selected for removal. */
  function KeptModels(row: Row, sel: Selection): seq<string> {
    Without(Normalize(GetModels(row.models)), SelectedRemoves(row, sel))
  }

  lemma NextModelsSplit(env: Env, row: Row, sel: Selection)
    requires Fresh(env, row)
    ensures NextModels(row, sel) == KeptModels(row, sel) + SelectedAdds(row, sel)
    ensures Normal(KeptModels(row, sel)) && forall x | x in KeptModels(row, sel) :: COMMA !in x
  {
    var local := Normalize(GetModels(row.models));
    var add, remove := SelectedAdds(row, sel), SelectedRemoves(row, sel);
    SelectionFacts(env, row, sel);
    NextModelsFacts(env, row, sel);
    FilterAppend(local, add, NotIn(remove));
    FilterAll(add, NotIn(remove));
    NormalizeNormal(GetModels(row.models));
    FilterNormal(local, NotIn(remove));
    StoredCommaFree(row.models);
  }

  /** The stored models read back as the kept ones and whatever the added ones turned into. */
  lemma NextModelsStored(env: Env, row: Row, sel: Selection, now: int)
    requires Fresh(env, row)
    ensures Normalize(GetModels(Applied(row, sel, now).models))
            == KeptModels(row, sel) + Without(AddedAs(row, sel), KeptModels(row, sel))
  {
    var kept, add := KeptModels(row, sel), SelectedAdds(row, sel);
    NextModelsSplit(env, row, sel);
    JoinedReadBack(kept, add);
    var local := Normalize(GetModels(row.models));
    if local == NextModels(row, sel) {
      SelectionFacts(env, row, sel);
      assert forall x | x in add :: x in kept + add;
      assert kept + add == kept;
      assert AddedAs(row, sel) == [];
    }
  }

  lemma AddedAsFacts(row: Row, sel: Selection)
    ensures Normal(AddedAs(row, sel)) && forall x | x in AddedAs(row, sel) :: COMMA !in x
  {
    NormalizeNormal(GetModels(Join(SelectedAdds(row, sel), COMMA)));
    StoredCommaFree(Join(SelectedAdds(row, sel), COMMA));
  }

  /** No name that an added one turns into would be found removed, unless it was already. */
  ghost predicate NoNewRemovals(env: Env, row: Row, sel: Selection) {
    forall x | x in AddedAs(row, sel) :: x in KeptModels(row, sel) || !Gone(env)(x)
  }

  /** Re-detection finds exactly the removals left staged, in order, if and only if no added
      name turns into one that counts as removed. */
  lemma RemovalsCommute(env: Env, row: Row, sel: Selection, now: int)
    requires Fresh(env, row)
    ensures var row' := Applied(row, sel, now);
      PendingRemove(env, GetModels(row'.models)) == row'.removed <==> NoNewRemovals(env, row, sel)
  {
    var row' := Applied(row, sel, now);
    var local := Normalize(GetModels(row.models));
    var kept, remove := KeptModels(row, sel), SelectedRemoves(row, sel);
    var extra := Without(AddedAs(row, sel), kept);
    SelectionFacts(env, row, sel);
    NextModelsStored(env, row, sel, now);
    PendingRemoveFacts(env, GetModels(row.models));
    PendingRemoveFacts(env, GetModels(row'.models));
    NormalizeFixes(remove);
    RemovalOrder(local, Gone(env), NotIn(remove));
    FilterAppend(kept, extra, Gone(env));
    assert row'.removed == Filter(kept, Gone(env));
    if NoNewRemovals(env, row, sel) {
      NoneKept(extra, Gone(env));
    } else {
      var x :| x in AddedAs(row, sel) && x !in kept && Gone(env)(x);
      assert x in Filter(extra, Gone(env));
    }
  }

  /** Filtering by two conditions, in either order. */
  lemma RemovalOrder(local: seq<string>, gone: string -> bool, left: string -> bool)
    ensures Filter(Filter(local, left), gone) == Filter(Filter(local, gone), left)
  {
    var both := x => left(x) && gone(x);
    FilterTwice(local, left, gone, both);
    FilterTwice(local, gone, left, both);
  }

  lemma {:induction false} NoneKept(xs: seq<string>, keep: string -> bool)
    requires forall x | x in xs :: !keep(x)
    ensures Filter(xs, keep) == []
    decreases |xs|
  {
    if xs != [] { NoneKept(xs[..|xs| - 1], keep); }
  }

  /** Entry e is on the ignore list after applying the selection. */
  predicate Survives(row: Row, sel: Selection, e: string) {
    (e in Normalize(row.ignored) || e in SelectedIgnores(row, sel)) && e !in SelectedAdds(row, sel)
  }

  /** The ignore list after applying: the old entries and the ignored selection, minus the
      selected adds. */
  lemma NextIgnoredFacts(env: Env, row: Row, sel: Selection)
    requires Fresh(env, row)
    ensures var kept := Normalize(NextIgnored(row, sel));
      forall e :: e in kept <==> Survives(row, sel, e)
  {
    var add, ignore := SelectedAdds(row, sel), SelectedIgnores(row, sel);
    SelectionFacts(env, row, sel);
    NormalizeFixes(ignore);
    NormalizeFixes(add);
    MergeNormal(row.ignored, ignore);
    var merged := Merge(row.ignored, ignore);
    NormalizeFixes(merged);
    FilterNormal(merged, NotIn(add));
    NormalizeFixes(Without(merged, add));
  }

  /** Some newly ignored pattern hits u. */
  ghost predicate HitByPattern(env: Env, row: Row, sel: Selection, u: string) {
    exists p | p in SelectedIgnores(row, sel) && p !in SelectedAdds(row, sel) && IsPattern(p) :: Hits(env, p, u)
  }

  /** The selection takes a pending name off the list that detection would find: it is stored,
      or hit by a newly ignored pattern, or ignored by its own plain name. */
  ghost predicate Taken(env: Env, row: Row, sel: Selection, u: string) {
    || u in AddedAs(row, sel) || HitByPattern(env, row, sel, u)
    || (u in SelectedIgnores(row, sel) && u !in SelectedAdds(row, sel) && !IsPattern(u))
  }

  /** A condition on the row and the selection before applying. The pending names it takes are
      exactly those that were selected; and a name ignored so far is still hit by an entry that
      was not selected for adding, or is stored now. */
  ghost predicate TakesWhatWasSelected(env: Env, row: Row, sel: Selection) {
    var local := Normalize(GetModels(row.models));
    && (forall u | u in row.detected ::
          Taken(env, row, sel, u) <==> u in SelectedAdds(row, sel) || u in SelectedIgnores(row, sel))
    && (forall u | u in Normalize(env.upstream) && !Covered(env, local, u) && u !in row.detected ::
          u in AddedAs(row, sel) || exists e | Survives(row, sel, e) :: Hits(env, e, u))
  }

  lemma CoveredAfter(env: Env, row: Row, sel: Selection, now: int, u: string)
    requires Fresh(env, row) && u in Normalize(env.upstream)
    ensures Covered(env, Normalize(GetModels(Applied(row, sel, now).models)), u) <==>
            Covered(env, Normalize(GetModels(row.models)), u) || u in AddedAs(row, sel)
    ensures u in row.detected <==> New(env, Normalize(GetModels(row.models)), Normalize(row.ignored))(u)
  {
    SelectionFacts(env, row, sel);
    NextModelsStored(env, row, sel, now);
    PendingAddFacts(env, GetModels(row.models), row.ignored);
  }

  /** What the new ignore list hits among the pending names. */
  lemma IgnoredAfter(env: Env, row: Row, sel: Selection, u: string)
    requires Fresh(env, row) && u in row.detected
    ensures Ignored(env, Normalize(NextIgnored(row, sel)), u) <==>
            || HitByPattern(env, row, sel, u)
            || (u in SelectedIgnores(row, sel) && u !in SelectedAdds(row, sel) && !IsPattern(u))
  {
    NextIgnoredFacts(env, row, sel);
    PendingAddFacts(env, GetModels(row.models), row.ignored);
    assert !Ignored(env, Normalize(row.ignored), u);
    var after := Normalize(NextIgnored(row, sel));
    if Ignored(env, after, u) {
      var e :| e in after && Hits(env, e, u);
      assert Survives(row, sel, e);
    }
    if HitByPattern(env, row, sel, u) {
      var p :| p in SelectedIgnores(row, sel) && p !in SelectedAdds(row, sel) && IsPattern(p) && Hits(env, p, u);
      assert Survives(row, sel, p);
    }
    if u in SelectedIgnores(row, sel) && u !in SelectedAdds(row, sel) && !IsPattern(u) {
      assert Survives(row, sel, u) && Hits(env, u, u);
    }
  }

  ghost function Staged(row: Row, sel: Selection): string -> bool {
    u => u in row.detected && u !in SelectedAdds(row, sel) && u !in SelectedIgnores(row, sel)
  }

  lemma RemainingAdds(env: Env, row: Row, sel: Selection, now: int)
    requires Fresh(env, row)
    ensures Applied(row, sel, now).detected == Filter(Normalize(env.upstream), Staged(row, sel))
  {
    var add, ignore := SelectedAdds(row, sel), SelectedIgnores(row, sel);
    SelectionFacts(env, row, sel);
    PendingAddFacts(env, GetModels(row.models), row.ignored);
    CleanFixes(add + ignore);
    UniqFacts(add + ignore);
    FilterTwice(Normalize(env.upstream), New(env, Normalize(GetModels(row.models)), Normalize(row.ignored)),
                NotIn(Normalize(add + ignore)), Staged(row, sel));
  }

  /** A pending name is found again exactly when it was not taken, and is still staged exactly
      when it was not selected. */
  lemma FoundAgainIff(env: Env, row: Row, sel: Selection, now: int, u: string)
    requires Fresh(env, row) && u in row.detected
    ensures var row' := Applied(row, sel, now);
      && (u in PendingAdd(env, GetModels(row'.models), row'.ignored) <==> !Taken(env, row, sel, u))
      && (u in row'.detected <==> u !in SelectedAdds(row, sel) && u !in SelectedIgnores(row, sel))
  {
    var row' := Applied(row, sel, now);
    PendingAddFacts(env, GetModels(row.models), row.ignored);
    PendingAddFacts(env, GetModels(row'.models), row'.ignored);
    CoveredAfter(env, row, sel, now, u);
    IgnoredAfter(env, row, sel, u);
    RemainingAdds(env, row, sel, now);
  }

  /** A name that was not pending is found exactly when neither the stored models nor the new
      ignore list cover it. */
  lemma NewlyFoundIff(env: Env, row: Row, sel: Selection, now: int, u: string)
    requires Fresh(env, row) && u in Normalize(env.upstream) && u !in row.detected
    ensures var row' := Applied(row, sel, now);
      && u !in row'.detected
      && (u !in PendingAdd(env, GetModels(row'.models), row'.ignored) <==>
            || Covered(env, Normalize(GetModels(row.models)), u) || u in AddedAs(row, sel)
            || exists e | Survives(row, sel, e) :: Hits(env, e, u))
  {
    var row' := Applied(row, sel, now);
    PendingAddFacts(env, GetModels(row'.models), row'.ignored);
    CoveredAfter(env, row, sel, now, u);
    NextIgnoredFacts(env, row, sel);
    RemainingAdds(env, row, sel, now);
  }

  /** Both lists are the upstream names, in order, filtered. */
  lemma AdditionsFiltered(env: Env, row: Row, sel: Selection, now: int)
    requires Fresh(env, row)
    ensures var row', up := Applied(row, sel, now), Normalize(env.upstream);
      && PendingAdd(env, GetModels(row'.models), row'.ignored)
         == Filter(up, New(env, Normalize(GetModels(row'.models)), Normalize(row'.ignored)))
      && row'.detected == Filter(up, Staged(row, sel))
      && forall u | u in row.detected :: u in up
  {
    PendingAddFacts(env, GetModels(row.models), row.ignored);
    PendingAddFacts(env, GetModels(Applied(row, sel, now).models), Applied(row, sel, now).ignored);
    RemainingAdds(env, row, sel, now);
  }

  lemma AdditionsAgree(env: Env, row: Row, sel: Selection, now: int)
    requires Fresh(env, row) && TakesWhatWasSelected(env, row, sel)
    ensures var row' := Applied(row, sel, now); PendingAdd(env, GetModels(row'.models), row'.ignored) == row'.detected
  {
    var row' := Applied(row, sel, now);
    var up, found := Normalize(env.upstream), New(env, Normalize(GetModels(row'.models)), Normalize(row'.ignored));
    AdditionsFiltered(env, row, sel, now);
    forall u | u in up ensures found(u) == Staged(row, sel)(u) {
      if u in row.detected { FoundAgainIff(env, row, sel, now, u); } else { NewlyFoundIff(env, row, sel, now, u); }
    }
    FilterAgree(up, found, Staged(row, sel));
  }

  lemma AgreementOnPending(env: Env, row: Row, sel: Selection, now: int, u: string)
    requires Fresh(env, row) && u in row.detected
    requires var row' := Applied(row, sel, now);
      u in PendingAdd(env, GetModels(row'.models), row'.ignored) <==> u in row'.detected
    ensures Taken(env, row, sel, u) <==> u in SelectedAdds(row, sel) || u in SelectedIgnores(row, sel)
  {
    FoundAgainIff(env, row, sel, now, u);
  }

  lemma AgreementOnIgnored(env: Env, row: Row, sel: Selection, now: int, u: string)
    requires Fresh(env, row) && u in Normalize(env.upstream) && u !in row.detected
    requires !Covered(env, Normalize(GetModels(row.models)), u)
    requires var row' := Applied(row, sel, now);
      u in PendingAdd(env, GetModels(row'.models), row'.ignored) <==> u in row'.detected
    ensures u in AddedAs(row, sel) || exists e | Survives(row, sel, e) :: Hits(env, e, u)
  {
    NewlyFoundIff(env, row, sel, now, u);
  }

  lemma AgreementTakes(env: Env, row: Row, sel: Selection, now: int, found: seq<string>, staged: seq<string>)
    requires Fresh(env, row) && found == staged && staged == Applied(row, sel, now).detected
    requires var row' := Applied(row, sel, now); found == PendingAdd(env, GetModels(row'.models), row'.ignored)
    ensures TakesWhatWasSelected(env, row, sel)
  {
    var local := Normalize(GetModels(row.models));
    forall u | u in row.detected
      ensures Taken(env, row, sel, u) <==> u in SelectedAdds(row, sel) || u in SelectedIgnores(row, sel)
    {
      AgreementOnPending(env, row, sel, now, u);
    }
    forall u | u in Normalize(env.upstream) && !Covered(env, local, u) && u !in row.detected
      ensures u in AddedAs(row, sel) || exists e | Survives(row, sel, e) :: Hits(env, e, u)
    {
      AgreementOnIgnored(env, row, sel, now, u);
    }
  }

  /** Re-detection finds exactly the additions left staged, in order, if and only if the
      selection takes exactly what was selected. */
  lemma AdditionsCommute(env: Env, row: Row, sel: Selection, now: int)
    requires Fresh(env, row)
    ensures var row' := Applied(row, sel, now);
      PendingAdd(env, GetModels(row'.models), row'.ignored) == row'.detected <==> TakesWhatWasSelected(env, row, sel)
  {
    var row' := Applied(row, sel, now);
    var found := PendingAdd(env, GetModels(row'.models), row'.ignored);
    if TakesWhatWasSelected(env, row, sel) { AdditionsAgree(env, row, sel, now); }
    if found == row'.detected { AgreementTakes(env, row, sel, now, found, row'.detected); }
  }

  /** Detect and apply commute. Take a row whose staged lists are fresh and any selection of
      adds, ignores and removes at all. Re-detecting against the same upstream and redirects
      finds exactly the lists left staged, in order, if and only if no added name turns into
      one that counts as removed and the selection takes exactly what was selected. */
  lemma DetectApplyCommute(env: Env, row: Row, sel: Selection, now: int)
    requires Fresh(env, row)
    ensures Fresh(env, Applied(row, sel, now)) <==> NoNewRemovals(env, row, sel) && TakesWhatWasSelected(env, row, sel)
  {
    RemovalsCommute(env, row, sel, now);
    AdditionsCommute(env, row, sel, now);
  }

  /** A selected add with a comma is stored as several names and, unless a newly ignored
      pattern hits it, is offered again. */
  lemma CommaComesBack(env: Env, row: Row, sel: Selection, now: int, x: string)
    requires Fresh(env, row) && x in SelectedAdds(row, sel) && COMMA in x && !HitByPattern(env, row, sel, x)
    ensures var row' := Applied(row, sel, now);
      x in PendingAdd(env, GetModels(row'.models), row'.ignored) && x !in row'.detected
  {
    SelectionFacts(env, row, sel);
    AddedAsFacts(row, sel);
    FoundAgainIff(env, row, sel, now, x);
  }

  /** An ignored name that reads as a pattern and is hit by no newly ignored pattern, not even
      itself, is offered again, unless an added name turned into it. */
  lemma IgnoredPatternComesBack(env: Env, row: Row, sel: Selection, now: int, x: string)
    requires Fresh(env, row) && x in SelectedIgnores(row, sel) && x !in SelectedAdds(row, sel)
    requires IsPattern(x) && !HitByPattern(env, row, sel, x) && x !in AddedAs(row, sel)
    ensures var row' := Applied(row, sel, now);
      x in PendingAdd(env, GetModels(row'.models), row'.ignored) && x !in row'.detected
  {
    SelectionFacts(env, row, sel);
    FoundAgainIff(env, row, sel, now, x);
  }

  /** No selected name reads as a pattern: the ordinary case. */
  ghost predicate NoPatternSelected(row: Row, sel: Selection) {
    forall x | x in SelectedAdds(row, sel) || x in SelectedIgnores(row, sel) :: !IsPattern(x)
  }

  lemma PlainCommutes(env: Env, row: Row, sel: Selection)
    requires Fresh(env, row) && NoPatternSelected(row, sel) && forall x | x in SelectedAdds(row, sel) :: COMMA !in x
    ensures NoNewRemovals(env, row, sel) && TakesWhatWasSelected(env, row, sel)
  {
    SelectionFacts(env, row, sel);
    StoreRoundTrip(SelectedAdds(row, sel));
    PendingAddFacts(env, GetModels(row.models), row.ignored);
    var local := Normalize(GetModels(row.models));
    forall u | u in Normalize(env.upstream) && !Covered(env, local, u) && u !in row.detected
      ensures exists e | Survives(row, sel, e) :: Hits(env, e, u)
    {
      var e :| e in Normalize(row.ignored) && Hits(env, e, u);
      assert Survives(row, sel, e);
    }
  }

  /** When no selected name reads as a pattern, applying leaves exactly what re-detection
      finds if and only if no selected add holds a comma. */
  lemma CommuteIffCommaFree(env: Env, row: Row, sel: Selection, now: int)
    requires Fresh(env, row) && NoPatternSelected(row, sel)
    ensures Fresh(env, Applied(row, sel, now)) <==> forall x | x in SelectedAdds(row, sel) :: COMMA !in x
  {
    if forall x | x in SelectedAdds(row, sel) :: COMMA !in x {
      PlainCommutes(env, row, sel);
      DetectApplyCommute(env, row, sel, now);
    } else {
      var x :| x in SelectedAdds(row, sel) && COMMA in x;
      CommaComesBack(env, row, sel, now, x);
    }
  }

  /** The whole cycle, from any stored row and for any selection: check the upstream, apply the
      selection, detect again. What is found is what was left staged, in order, under exactly
      the condition above; if no selected name reads as a pattern, exactly when no selected add
      holds a comma. */
  lemma CheckApplyDetect(env: Env, stored: Row, sel: Selection, now: int, later: int)
    ensures var row := Checked(env, stored, now, false);
      && (Fresh(env, Applied(row, sel, later)) <==>
            NoNewRemovals(env, row, sel) && TakesWhatWasSelected(env, row, sel))
      && (NoPatternSelected(row, sel) ==>
            (Fresh(env, Applied(row, sel, later)) <==> forall x | x in SelectedAdds(row, sel) :: COMMA !in x))
  {
    var row := Checked(env, stored, now, false);
    CheckedIsFresh(env, stored, now, false);
    DetectApplyCommute(env, row, sel, later);
    if NoPatternSelected(row, sel) {
      CommuteIffCommaFree(env, row, sel, later);
    }
  }

  // ----- When every selection commutes -----

  /** The names an upstream can have detected: offered, and no redirect target. */
  predicate Offered(env: Env, p: string) { p in Normalize(env.upstream) && p !in env.redirects.Values }

  /** Applying any selection to any fresh row leaves it fresh. */
  ghost predicate AlwaysCommutes(env: Env) {
    forall row, sel, now | Fresh(env, row) :: Fresh(env, Applied(row, sel, now))
  }

  /** A name that is stored as it is and, as an ignore entry, hits itself and nothing else. */
  ghost predicate Tame(env: Env, p: string) {
    COMMA !in p && forall u | Offered(env, u) :: Hits(env, p, u) <==> p == u
  }

  lemma DetectedOffered(env: Env, row: Row)
    requires Fresh(env, row)
    ensures forall u | u in row.detected :: Offered(env, u)
  {
    PendingAddFacts(env, GetModels(row.models), row.ignored);
  }

  lemma TameCommutes(env: Env, row: Row, sel: Selection)
    requires Fresh(env, row) && forall p | Offered(env, p) :: Tame(env, p)
    ensures NoNewRemovals(env, row, sel) && TakesWhatWasSelected(env, row, sel)
  {
    SelectionFacts(env, row, sel);
    DetectedOffered(env, row);
    StoreRoundTrip(SelectedAdds(row, sel));
    PendingAddFacts(env, GetModels(row.models), row.ignored);
    var local := Normalize(GetModels(row.models));
    forall u | u in row.detected
      ensures Taken(env, row, sel, u) <==> u in SelectedAdds(row, sel) || u in SelectedIgnores(row, sel)
    {
      TameTaken(env, row, sel, u);
    }
    forall u | u in Normalize(env.upstream) && !Covered(env, local, u) && u !in row.detected
      ensures exists e | Survives(row, sel, e) :: Hits(env, e, u)
    {
      var e :| e in Normalize(row.ignored) && Hits(env, e, u);
      assert Offered(env, u);
      assert Survives(row, sel, e);
    }
  }

  lemma TameTaken(env: Env, row: Row, sel: Selection, u: string)
    requires Fresh(env, row) && u in row.detected && forall p | Offered(env, p) :: Tame(env, p)
    requires AddedAs(row, sel) == SelectedAdds(row, sel)
    ensures Taken(env, row, sel, u) <==> u in SelectedAdds(row, sel) || u in SelectedIgnores(row, sel)
  {
    SelectionFacts(env, row, sel);
    DetectedOffered(env, row);
    assert Tame(env, u);
    if HitByPattern(env, row, sel, u) {
      var p :| p in SelectedIgnores(row, sel) && p !in SelectedAdds(row, sel) && IsPattern(p) && Hits(env, p, u);
      assert Tame(env, p);
    }
    if u in SelectedIgnores(row, sel) && u !in SelectedAdds(row, sel) && IsPattern(u) {
      assert Hits(env, u, u);
    }
  }

  /** A new channel after its first check: every offered name is pending. */
  function FirstCheck(env: Env): Row { Checked(env, Row([], [], [], [], 0, false), 0, false) }

  lemma FirstCheckFacts(env: Env)
    ensures Fresh(env, FirstCheck(env))
    ensures forall p :: p in FirstCheck(env).detected <==> Offered(env, p)
  {
    CheckedIsFresh(env, Row([], [], [], [], 0, false), 0, false);
    PendingAddFacts(env, [], []);
    assert Normalize([]) == [];
  }

  lemma IntersectOne(p: string, staged: seq<string>)
    requires Normal(staged) && p in staged
    ensures Intersect([p], Normalize(staged)) == [p] && Intersect([], Normalize(staged)) == []
  {
    NormalizeFixes(staged);
    NormalizeFixes([p]);
    FilterAll([p], In(staged));
    assert Normalize([]) == [];
  }

  lemma SelectOne(env: Env, p: string)
    requires Offered(env, p)
    ensures SelectedAdds(FirstCheck(env), Selection([p], [], [])) == [p]
    ensures SelectedIgnores(FirstCheck(env), Selection([p], [], [])) == []
    ensures SelectedAdds(FirstCheck(env), Selection([], [p], [])) == []
    ensures SelectedIgnores(FirstCheck(env), Selection([], [p], [])) == [p]
  {
    var staged := FirstCheck(env).detected;
    FirstCheckFacts(env);
    PendingAddFacts(env, [], []);
    IntersectOne(p, staged);
  }

  lemma CommaDisturbs(env: Env, p: string)
    requires Offered(env, p) && COMMA in p
    ensures !AlwaysCommutes(env)
  {
    var row, sel := FirstCheck(env), Selection([p], [], []);
    FirstCheckFacts(env);
    SelectOne(env, p);
    CommaComesBack(env, row, sel, 0, p);
    assert !Fresh(env, Applied(row, sel, 0));
  }

  lemma PatternDisturbs(env: Env, p: string, u: string)
    requires Offered(env, p) && Offered(env, u) && !(Hits(env, p, u) <==> p == u)
    ensures !AlwaysCommutes(env)
  {
    var row, sel := FirstCheck(env), Selection([], [p], []);
    FirstCheckFacts(env);
    SelectOne(env, p);
    assert AddedAs(row, sel) == [];
    FoundAgainIff(env, row, sel, 0, u);
    assert IsPattern(p);
    assert HitByPattern(env, row, sel, u) <==> Hits(env, p, u);
    assert !Fresh(env, Applied(row, sel, 0));
  }

  /** Every selection commutes with detection if and only if every offered name is tame: a
      condition on what the upstream offers, whatever the channel holds and the operator picks. */
  lemma AlwaysCommutesIff(env: Env)
    ensures AlwaysCommutes(env) <==> forall p | Offered(env, p) :: Tame(env, p)
  {
    if forall p | Offered(env, p) :: Tame(env, p) {
      forall row, sel, now | Fresh(env, row) ensures Fresh(env, Applied(row, sel, now)) {
        TameCommutes(env, row, sel);
        DetectApplyCommute(env, row, sel, now);
      }
    } else {
      var p :| Offered(env, p) && !Tame(env, p);
      if COMMA in p {
        CommaDisturbs(env, p);
      } else {
        var u :| Offered(env, u) && !(Hits(env, p, u) <==> p == u);
        PatternDisturbs(env, p, u);
      }
    }
  }

  /** A channel without models whose upstream offers just this name. */
  lemma SingleOffer(env: Env, name: string)
    requires Plain(name) && env.upstream == [name] && env.redirects == map[]
    ensures Fresh(env, Row([], [], [name], [], 0, false))
    ensures Normalize([name]) == [name]
  {
    NormalizeFixes([name]);
    PendingAddFacts(env, [], []);
    FilterAll([name], New(env, Normalize([]), Normalize([])));
    PendingRemoveFacts(env, []);
  }

  lemma OfferedAgain(env: Env, name: string, local: seq<string>, ignored: seq<string>)
    requires Plain(name) && env.upstream == [name] && name in PendingAdd(env, local, ignored)
    ensures PendingAdd(env, local, ignored) == [name]
  {
    NormalizeFixes([name]);
    PendingAddFacts(env, local, ignored);
    FilterAll([name], New(env, Normalize(local), Normalize(ignored)));
  }

  /** A name that reads as a pattern and does not match itself, the only one offered, is
      offered again right after the operator ignored it. */
  lemma PatternOffer(env: Env, name: string)
    requires Plain(name) && env.upstream == [name] && env.redirects == map[]
    requires IsPattern(name) && !Hits(env, name, name)
    ensures var row' := Applied(Row([], [], [name], [], 0, false), Selection([], [name], []), 0);
      PendingAdd(env, GetModels(row'.models), row'.ignored) == [name] && row'.detected == []
  {
    var row, sel := Row([], [], [name], [], 0, false), Selection([], [name], []);
    var row' := Applied(row, sel, 0);
    SingleOffer(env, name);
    FilterAll([name], In([name]));
    assert SelectedAdds(row, sel) == [] && AddedAs(row, sel) == [] && SelectedIgnores(row, sel) == [name];
    IgnoredPatternComesBack(env, row, sel, 0, name);
    OfferedAgain(env, name, GetModels(row'.models), row'.ignored);
    RemainingAdds(env, row, sel, 0);
    NoneKept(Normalize(env.upstream), Staged(row, sel));
  }

  /** A name with a comma, the only one offered, is offered again right after the operator
      added it. */
  lemma CommaOffer(env: Env, name: string)
    requires Plain(name) && env.upstream == [name] && env.redirects == map[] && COMMA in name
    ensures var row' := Applied(Row([], [], [name], [], 0, false), Selection([name], [], []), 0);
      PendingAdd(env, GetModels(row'.models), row'.ignored) == [name] && row'.detected == []
  {
    var row, sel := Row([], [], [name], [], 0, false), Selection([name], [], []);
    var row' := Applied(row, sel, 0);
    SingleOffer(env, name);
    FilterAll([name], In([name]));
    assert SelectedAdds(row, sel) == [name] && SelectedIgnores(row, sel) == [];
    CommaComesBack(env, row, sel, 0, name);
    OfferedAgain(env, name, GetModels(row'.models), row'.ignored);
    RemainingAdds(env, row, sel, 0);
    NoneKept(Normalize(env.upstream), Staged(row, sel));
  }

  /** After an automatic sync nothing is left to add and the same removals are found, if and
      only if no added name holds a comma. */
  lemma AutoSyncSettles(env: Env, row: Row, now: int)
    requires row.autoSync && PendingAdd(env, GetModels(row.models), row.ignored) != []
    ensures Fresh(env, Checked(env, row, now, true)) <==>
            forall x | x in PendingAdd(env, GetModels(row.models), row.ignored) :: COMMA !in x
  {
    var row' := Checked(env, row, now, true);
    var origin := Normalize(GetModels(row.models));
    var add := PendingAdd(env, GetModels(row.models), row.ignored);
    AddsAreNew(env, row);
    PendingAddFacts(env, GetModels(row.models), row.ignored);
    PendingAddFacts(env, GetModels(row'.models), row.ignored);
    StoredCommaFree(row.models);
    if forall x | x in add :: COMMA !in x {
      StoreRoundTrip(origin + add);
      NoneKept(Normalize(env.upstream), New(env, origin + add, Normalize(row.ignored)));
      PendingRemoveFacts(env, GetModels(row.models));
      PendingRemoveFacts(env, GetModels(row'.models));
      FilterAppend(origin, add, Gone(env));
      NoneKept(add, Gone(env));
    } else {
      var x :| x in add && COMMA in x;
      StoredCommaFree(row'.models);
      assert New(env, Normalize(GetModels(row'.models)), Normalize(row.ignored))(x);
    }
  }
}

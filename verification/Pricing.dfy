/** Normalising the pricing tables that are compared during a price synchronisation.
    A table maps each field to a map from model name to value; a row is what one table
    says about one model. */
module Pricing {
  import opened Text

  /** A float64: a real number or one of the special values. */
  datatype Float = Fin(r: real) | NaN | PosInf | NegInf

  /** A dynamically typed value. Numbers of every Go numeric type are `Num`; anything that is
      neither a number nor a string is `Other`. */
  datatype Value = Num(f: Float) | Str(s: string) | Other(tag: int)

  datatype Field =
    | ModelRatio | CompletionRatio | CacheRatio | CreateCacheRatio | ImageRatio
    | AudioRatio | AudioCompletionRatio | ModelPrice | BillingMode | BillingExpr

  const RATIOS: seq<Field> := [ModelRatio, CompletionRatio, CacheRatio, CreateCacheRatio, ImageRatio,
                               AudioRatio, AudioCompletionRatio]
  const NUMERIC: seq<Field> := RATIOS + [ModelPrice]
  const FIELDS: seq<Field> := NUMERIC + [BillingMode, BillingExpr]

  predicate Numeric(f: Field) { f != BillingMode && f != BillingExpr }

  lemma FieldsComplete(f: Field)
    ensures f in FIELDS && (f in NUMERIC <==> Numeric(f)) && (f in RATIOS <==> Numeric(f) && f != ModelPrice)
  {
  }

  const RATIO_MODE := Str("ratio")
  const TIERED_MODE := Str("tiered_expr")

  type Table = map<Field, map<string, Value>>

  type Row = map<Field, Value>

  function Entries(t: Table, f: Field): map<string, Value> { if f in t then t[f] else map[] }

  function Names(t: Table): set<string> { set f, n | f in t && n in t[f] :: n }

  function RowOf(t: Table, name: string): Row {
    map f: Field | f in t && name in t[f] :: t[f][name]
  }

  // ----- One row at a time -----

  /** A price or ratio that can be compared: finite and not negative. */
  predicate Usable(v: Value) { v.Num? && v.f.Fin? && v.f.r >= 0.0 }

  predicate Admissible(f: Field, v: Value) { Numeric(f) ==> Usable(v) }

  function Cleaned(row: Row): Row { map f | f in row && Admissible(f, row[f]) :: row[f] }

  predicate Tiered(row: Row) { BillingMode in row && row[BillingMode] == TIERED_MODE }

  function Expression(row: Row): string {
    if BillingExpr in row && row[BillingExpr].Str? then TrimSpace(row[BillingExpr].s) else []
  }

  /** The price a row stands for, by the billing engine's precedence: an expression if the
      mode asks for one, else a fixed price, else token ratios. */
  function Resolve(row: Row): Row {
    if row == map[] then row
    else if Tiered(row) then
      if Expression(row) == [] then map[]
      else map[BillingMode := TIERED_MODE, BillingExpr := Str(Expression(row))]
    else if ModelPrice in row then map[BillingMode := RATIO_MODE, ModelPrice := row[ModelPrice]]
    else if ModelRatio in row then (map f | f in row && Numeric(f) :: row[f])[BillingMode := RATIO_MODE]
    else map[]
  }

  function EffectiveRow(row: Row): Row { Resolve(Cleaned(row)) }

  predicate TieredRegime(row: Row) {
    && row.Keys == {BillingMode, BillingExpr} && row[BillingMode] == TIERED_MODE
    && row[BillingExpr].Str? && row[BillingExpr].s != [] && Bare(row[BillingExpr].s, IsSpace)
  }

  predicate FixedRegime(row: Row) {
    row.Keys == {BillingMode, ModelPrice} && row[BillingMode] == RATIO_MODE && Usable(row[ModelPrice])
  }

  predicate TokenRegime(row: Row) {
    && {BillingMode, ModelRatio} <= row.Keys && ModelPrice !in row && BillingExpr !in row
    && row[BillingMode] == RATIO_MODE
    && forall f | f in row && Numeric(f) :: Usable(row[f])
  }

  /** A row that survives is in exactly one of the three regimes, and each regime is reached
      exactly from the rows the precedence assigns to it. */
  lemma ExactlyOneRegime(row: Row)
    ensures var e := EffectiveRow(row);
      var wantsExpr := BillingMode in row && row[BillingMode] == Str("tiered_expr");
      var fixed := ModelPrice in row && row[ModelPrice].Num? && row[ModelPrice].f.Fin? && row[ModelPrice].f.r >= 0.0;
      var token := ModelRatio in row && row[ModelRatio].Num? && row[ModelRatio].f.Fin? && row[ModelRatio].f.r >= 0.0;
      && (TieredRegime(e) <==> wantsExpr && Expression(row) != [])
      && (FixedRegime(e) <==> !wantsExpr && fixed)
      && (TokenRegime(e) <==> !wantsExpr && !fixed && token)
      && (e == map[] <==> !TieredRegime(e) && !FixedRegime(e) && !TokenRegime(e))
  {
    var c := Cleaned(row);
    assert ModelPrice in c <==> ModelPrice in row && Usable(row[ModelPrice]);
    assert ModelRatio in c <==> ModelRatio in row && Usable(row[ModelRatio]);
    if Tiered(c) {
      assert Expression(c) == Expression(row);
      if BillingExpr in row && row[BillingExpr].Str? { TrimBare(row[BillingExpr].s, IsSpace); }
      assert !FixedRegime(Resolve(c)) && !TokenRegime(Resolve(c));
    } else if ModelPrice in c {
      assert !TieredRegime(Resolve(c));
    } else if ModelRatio in c {
      assert !FixedRegime(Resolve(c));
    }
  }

  /** An expression that survives is the row's own, trimmed. */
  lemma EffectiveExpression(row: Row)
    requires BillingExpr in EffectiveRow(row)
    ensures BillingExpr in row && row[BillingExpr].Str?
    ensures EffectiveRow(row)[BillingExpr] == Str(TrimSpace(row[BillingExpr].s))
  {
    var c := Cleaned(row);
    assert Tiered(c) && Expression(c) != [];
  }

  /** Field by field, what a surviving row holds: the mode; the trimmed expression; the row's own
      numbers, those that are finite and not negative - just the price if there is one. */
  lemma EffectiveFields(row: Row, f: Field)
    ensures var e := EffectiveRow(row);
      var ok := f in row && row[f].Num? && row[f].f.Fin? && row[f].f.r >= 0.0;
      && (f in e && f != BillingMode && f != BillingExpr ==> ok && e[f] == row[f])
      && (TokenRegime(e) && f != BillingMode && f != BillingExpr ==> (f in e <==> ok))
      && (f == BillingMode && f in e ==> e[f] == Str(if TieredRegime(e) then "tiered_expr" else "ratio"))
      && (f == BillingExpr && f in e ==> f in row && row[f].Str? && e[f] == Str(TrimSpace(row[f].s)))
  {
    ExactlyOneRegime(row);
    if f == BillingExpr && f in EffectiveRow(row) { EffectiveExpression(row); }
  }

  /** A row in one of the regimes is its own normal form. */
  lemma RegimeFixed(e: Row)
    requires TieredRegime(e) || FixedRegime(e) || TokenRegime(e)
    ensures EffectiveRow(e) == e
  {
    assert Cleaned(e) == e;
    if TieredRegime(e) {
      TrimBare(e[BillingExpr].s, IsSpace);
      assert Expression(e) == e[BillingExpr].s;
      assert Resolve(e) == e;
    } else if FixedRegime(e) {
      assert Resolve(e) == e;
    } else {
      assert !Tiered(e);
      assert (map f | f in e && Numeric(f) :: e[f])[BillingMode := RATIO_MODE] == e;
    }
  }

  /** Normalising twice is normalising once. */
  lemma EffectiveIdempotent(row: Row)
    ensures EffectiveRow(EffectiveRow(row)) == EffectiveRow(row)
  {
    ExactlyOneRegime(row);
    var e := EffectiveRow(row);
    if e == map[] {
      assert Cleaned(e) == e;
    } else {
      RegimeFixed(e);
    }
  }

  // ----- The table operation -----

  predicate Complete(t: Table) { forall f: Field :: f in t }

  ghost predicate SameElsewhere(a: Table, b: Table, name: string) {
    forall n | n != name :: RowOf(a, n) == RowOf(b, n)
  }

  function Put(t: Table, f: Field, name: string, v: Value): Table
    requires f in t
  {
    t[f := t[f][name := v]]
  }

  function Drop(t: Table, f: Field, name: string): Table
    requires f in t
  {
    t[f := t[f] - {name}]
  }

  lemma PutRow(t: Table, f: Field, name: string, v: Value)
    requires f in t
    ensures RowOf(Put(t, f, name, v), name) == RowOf(t, name)[f := v]
    ensures SameElsewhere(t, Put(t, f, name, v), name)
  {
  }

  lemma DropRow(t: Table, f: Field, name: string)
    requires f in t
    ensures RowOf(Drop(t, f, name), name) == RowOf(t, name) - {f}
    ensures SameElsewhere(t, Drop(t, f, name), name)
  {
  }

  ghost function Less(row: Row, fields: seq<Field>): Row { map f | f in row && f !in fields :: row[f] }

  /** Deletes the name from each listed field. */
  method DeleteName(t: Table, fields: seq<Field>, name: string) returns (t': Table)
    requires Complete(t)
    ensures Complete(t') && SameElsewhere(t, t', name)
    ensures RowOf(t', name) == Less(RowOf(t, name), fields)
  {
    t' := t;
    for i := 0 to |fields|
      invariant Complete(t') && SameElsewhere(t, t', name)
      invariant RowOf(t', name) == Less(RowOf(t, name), fields[..i])
    {
      DropRow(t', fields[i], name);
      t' := Drop(t', fields[i], name);
      assert fields[..i + 1] == fields[..i] + [fields[i]];
    }
    assert fields[..|fields|] == fields;
  }

  /** The entries that can be compared, of the names already visited. */
  ghost function Comparable(f: Field, raw: map<string, Value>, todo: set<string>): map<string, Value> {
    map n | n in raw && n !in todo && Admissible(f, raw[n]) :: raw[n]
  }

  lemma ComparableStep(f: Field, raw: map<string, Value>, todo: set<string>, n: string)
    requires n in todo && n in raw
    ensures var before := Comparable(f, raw, todo);
      Comparable(f, raw, todo - {n}) == if Admissible(f, raw[n]) then before[n := raw[n]] else before
  {
  }

  /** The entries of one field that can be compared. The names come in any order. */
  method CleanField(f: Field, raw: map<string, Value>) returns (entries: map<string, Value>)
    ensures entries == map n | n in raw && Admissible(f, raw[n]) :: raw[n]
  {
    entries := map[];
    var todo := raw.Keys;
    while todo != {}
      invariant todo <= raw.Keys && entries == Comparable(f, raw, todo)
      decreases |todo|
    {
      var n :| n in todo;
      ComparableStep(f, raw, todo, n);
      todo := todo - {n};
      if Numeric(f) && !Usable(raw[n]) { continue; }
      entries := entries[n := raw[n]];
    }
  }

  /** The entries of field f that survive cleaning. */
  ghost function CleanEntries(data: Table, f: Field): map<string, Value> {
    map n | n in Entries(data, f) && Admissible(f, Entries(data, f)[n]) :: Entries(data, f)[n]
  }

  ghost predicate CleanedUpTo(data: Table, result: Table, names: set<string>, fields: seq<Field>) {
    && (forall f :: f in result <==> f in fields)
    && (forall f | f in result :: result[f] == CleanEntries(data, f))
    && names == Names(result)
  }

  lemma CleanStep(data: Table, result: Table, names: set<string>, fields: seq<Field>, f: Field)
    requires CleanedUpTo(data, result, names, fields) && f !in fields
    ensures CleanedUpTo(data, result[f := CleanEntries(data, f)], names + CleanEntries(data, f).Keys, fields + [f])
  {
    var result' := result[f := CleanEntries(data, f)];
    forall n ensures n in names + CleanEntries(data, f).Keys <==> n in Names(result') {
      if n in names {
        var g :| g in result && n in result[g];
        assert g in result' && n in result'[g];
      }
      if n in CleanEntries(data, f) { assert f in result' && n in result'[f]; }
    }
  }

  lemma CleanRow(data: Table, result: Table, n: string)
    requires forall f: Field :: f in result && result[f] == CleanEntries(data, f)
    ensures RowOf(result, n) == Cleaned(RowOf(data, n))
    ensures n in Names(result) <==> RowOf(result, n) != map[]
  {
    var row, cleaned := RowOf(result, n), Cleaned(RowOf(data, n));
    forall f: Field ensures f in row <==> f in cleaned { assert f in row <==> n in CleanEntries(data, f); }
    assert row.Keys == cleaned.Keys;
    if n in Names(result) {
      var f :| f in result && n in result[f];
      assert f in RowOf(result, n);
    }
    if RowOf(result, n) != map[] {
      var f :| f in RowOf(result, n);
      assert f in result && n in result[f];
    }
  }

  lemma FieldsDistinct(i: nat)
    requires i < |FIELDS|
    ensures FIELDS[i] !in FIELDS[..i]
  {
  }

  method CleanTable(data: Table) returns (result: Table, names: set<string>)
    ensures Complete(result)
    ensures forall n :: RowOf(result, n) == Cleaned(RowOf(data, n))
    ensures forall n :: n in names <==> RowOf(result, n) != map[]
  {
    result, names := map[], {};
    var fields := FIELDS;
    for i := 0 to |fields|
      invariant CleanedUpTo(data, result, names, fields[..i])
    {
      var f := fields[i];
      FieldsDistinct(i);
      CleanStep(data, result, names, fields[..i], f);
      assert fields[..i + 1] == fields[..i] + [f];
      var entries := CleanField(f, Entries(data, f));
      names := names + entries.Keys;
      result := result[f := entries];
    }
    assert fields[..|fields|] == fields;
    forall f: Field ensures f in result { FieldsComplete(f); }
    forall n ensures RowOf(result, n) == Cleaned(RowOf(data, n)) && (n in names <==> RowOf(result, n) != map[]) {
      CleanRow(data, result, n);
    }
  }

  lemma LessAll(row: Row)
    ensures Less(row, FIELDS) == map[]
  {
    forall f: Field ensures f in FIELDS { FieldsComplete(f); }
  }

  lemma TieredRow(row: Row)
    requires Tiered(row) && Expression(row) != []
    ensures Less(row[BillingExpr := Str(Expression(row))], NUMERIC) == Resolve(row)
  {
    var r := Less(row[BillingExpr := Str(Expression(row))], NUMERIC);
    forall f: Field ensures f in NUMERIC <==> Numeric(f) { FieldsComplete(f); }
    assert r.Keys == {BillingMode, BillingExpr};
  }

  lemma PlainRow(row: Row)
    requires row != map[] && !Tiered(row)
    ensures var r := (row - {BillingExpr})[BillingMode := RATIO_MODE];
      && (ModelPrice in r <==> ModelPrice in row) && (ModelRatio in r <==> ModelRatio in row)
      && Resolve(row) == if ModelPrice in r then Less(r, RATIOS) else if ModelRatio in r then r else map[]
  {
    var r := (row - {BillingExpr})[BillingMode := RATIO_MODE];
    forall f: Field ensures f in RATIOS <==> Numeric(f) && f != ModelPrice { FieldsComplete(f); }
    if ModelPrice in r {
      assert Less(r, RATIOS).Keys == {BillingMode, ModelPrice};
    } else if ModelRatio in r {
      assert r == Resolve(row);
    }
  }

  method ResolveTiered(t: Table, name: string) returns (t': Table)
    requires Complete(t) && Tiered(RowOf(t, name))
    ensures Complete(t') && SameElsewhere(t, t', name)
    ensures RowOf(t', name) == Resolve(RowOf(t, name))
  {
    var expression := if name in t[BillingExpr] && t[BillingExpr][name].Str? then t[BillingExpr][name].s else "";
    ghost var row := RowOf(t, name);
    TrimBare([], IsSpace);
    assert TrimSpace(expression) == Expression(row);
    if TrimSpace(expression) == [] {
      LessAll(row);
      t' := DeleteName(t, FIELDS, name);
      return;
    }
    TieredRow(row);
    PutRow(t, BillingExpr, name, Str(TrimSpace(expression)));
    t' := Put(t, BillingExpr, name, Str(TrimSpace(expression)));
    t' := DeleteName(t', NUMERIC, name);
  }

  method ResolvePlain(t: Table, name: string) returns (t': Table)
    requires Complete(t) && RowOf(t, name) != map[] && !Tiered(RowOf(t, name))
    ensures Complete(t') && SameElsewhere(t, t', name)
    ensures RowOf(t', name) == Resolve(RowOf(t, name))
  {
    PlainRow(RowOf(t, name));
    DropRow(t, BillingExpr, name);
    t' := Drop(t, BillingExpr, name);
    PutRow(t', BillingMode, name, RATIO_MODE);
    t' := Put(t', BillingMode, name, RATIO_MODE);
    var fixed, token := name in t'[ModelPrice], name in t'[ModelRatio];
    assert fixed == (ModelPrice in RowOf(t', name)) && token == (ModelRatio in RowOf(t', name));
    if !fixed && !token {
      LessAll(RowOf(t', name));
      t' := DeleteName(t', FIELDS, name);
    } else if fixed {
      t' := DeleteName(t', RATIOS, name);
    }
  }

  /** Applies the precedence to one model. */
  method ResolveName(t: Table, name: string) returns (t': Table)
    requires Complete(t) && RowOf(t, name) != map[]
    ensures Complete(t') && SameElsewhere(t, t', name)
    ensures RowOf(t', name) == Resolve(RowOf(t, name))
  {
    if name in t[BillingMode] && t[BillingMode][name] == TIERED_MODE {
      t' := ResolveTiered(t, name);
    } else {
      t' := ResolvePlain(t, name);
    }
  }

  /** Every row is cleaned and, unless its name is still to do, resolved. */
  ghost predicate Halfway(data: Table, result: Table, todo: set<string>) {
    forall n :: RowOf(result, n) == if n in todo then Cleaned(RowOf(data, n)) else EffectiveRow(RowOf(data, n))
  }

  lemma HalfwayStep(data: Table, before: Table, after: Table, todo: set<string>, name: string)
    requires Halfway(data, before, todo) && name in todo && SameElsewhere(before, after, name)
    requires RowOf(after, name) == Resolve(RowOf(before, name))
    ensures Halfway(data, after, todo - {name})
  {
  }

  // ----- The normalised table as a value -----

  ghost function EffectiveTable(t: Table): Table {
    map f: Field | f in FIELDS ::
      map n | n in Names(t) && f in EffectiveRow(RowOf(t, n)) :: EffectiveRow(RowOf(t, n))[f]
  }

  lemma EffectiveTableRow(t: Table, n: string)
    ensures Complete(EffectiveTable(t)) && RowOf(EffectiveTable(t), n) == EffectiveRow(RowOf(t, n))
  {
    forall f: Field ensures f in EffectiveTable(t) { FieldsComplete(f); }
    if n !in Names(t) {
      forall f: Field ensures f !in RowOf(t, n) { }
      assert RowOf(t, n) == map[];
      assert Cleaned(map[]) == map[];
    }
  }

  lemma TableOfRows(a: Table, b: Table)
    requires Complete(a) && Complete(b) && forall n :: RowOf(a, n) == RowOf(b, n)
    ensures a == b
  {
    forall f: Field ensures a[f] == b[f] {
      forall n ensures n in a[f] <==> n in b[f] {
        assert f in RowOf(a, n) <==> n in a[f];
        assert f in RowOf(b, n) <==> n in b[f];
      }
      forall n | n in a[f] ensures a[f][n] == b[f][n] {
        assert RowOf(a, n)[f] == a[f][n];
      }
    }
  }

  /** The second normalisation of an already normalised table changes nothing. */
  lemma EffectiveTableIdempotent(t: Table)
    ensures EffectiveTable(EffectiveTable(t)) == EffectiveTable(t)
  {
    var e := EffectiveTable(t);
    forall n ensures RowOf(EffectiveTable(e), n) == RowOf(e, n) {
      EffectiveTableRow(t, n);
      EffectiveTableRow(e, n);
      EffectiveIdempotent(RowOf(t, n));
    }
    EffectiveTableRow(t, "");
    EffectiveTableRow(e, "");
    TableOfRows(EffectiveTable(e), e);
  }

  /** effectivePricingSyncData. The models are visited in an arbitrary order, and the result
      is the same for all of them: each row is resolved on its own. */
  method Effective(data: Table) returns (result: Table)
    ensures result == EffectiveTable(data)
  {
    var todo;
    result, todo := CleanTable(data);
    assert Halfway(data, result, todo);
    while todo != {}
      invariant Complete(result) && Halfway(data, result, todo)
      invariant forall n | n in todo :: RowOf(result, n) != map[]
      decreases |todo|
    {
      var name :| name in todo;
      ghost var before := result;
      result := ResolveName(result, name);
      HalfwayStep(data, before, result, todo, name);
      todo := todo - {name};
      forall n | n in todo ensures RowOf(result, n) != map[] {
        assert RowOf(before, n) == RowOf(result, n);
      }
    }
    EffectiveTableRow(data, "");
    forall n ensures RowOf(result, n) == RowOf(EffectiveTable(data), n) { EffectiveTableRow(data, n); }
    TableOfRows(result, EffectiveTable(data));
  }
}

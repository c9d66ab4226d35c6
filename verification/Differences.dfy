/** Comparing the local prices with those of the upstream channels: which (model, field)
    pairs are reported, with which channels, and when no difference is lost on the way. */
module Differences {
  import opened Text
  import opened Pricing

  datatype Channel = Channel(name: string, data: Table)

  /** The local table and the channels, all normalised. */
  datatype View = View(local: Table, channels: seq<Channel>)

  function At(t: Table, m: string, f: Field): Option<Value> {
    if f in t && m in t[f] then Some(t[f][m]) else None
  }

  const EPSILON := 0.000000001

  predicate NearlyEqual(a: Float, b: Float) {
    a.Fin? && b.Fin? && (if a.r > b.r then a.r - b.r < EPSILON else b.r - a.r < EPSILON)
  }

  predicate ValuesEqual(a: Value, b: Value) {
    if a.Num? && b.Num? then NearlyEqual(a.f, b.f) else a == b
  }

  /** Two numbers count as different if they lie at least 1e-9 apart or one is NaN or infinite,
      any other two values if they are not the same. */
  ghost predicate Apart(a: Value, b: Value) {
    if a.Num? && b.Num? then !(a.f.Fin? && b.f.Fin? && -0.000000001 < a.f.r - b.f.r < 0.000000001) else a != b
  }

  lemma ValuesEqualIff(a: Value, b: Value)
    ensures ValuesEqual(a, b) <==> !Apart(a, b)
  {
  }

  /** What the report shows for a channel: nil, or a value, which may be the word "same". */
  datatype Cell = Nil | Val(v: Value)

  const SAME_WORD := Str("same")
  const SAME := Val(SAME_WORD)

  datatype Item = Item(current: Option<Value>, upstreams: map<string, Cell>, confidence: map<string, bool>)

  type Report = map<string, map<Field, Item>>

  // ----- When a pair is worth reporting -----

  predicate IsTiered(t: Table, m: string) { At(t, m, BillingMode) == Some(TIERED_MODE) }

  /** Some side prices the model by an expression; numbers are then not compared. */
  predicate Priority(v: View, m: string) {
    IsTiered(v.local, m) || exists i | 0 <= i < |v.channels| :: IsTiered(v.channels[i].data, m)
  }

  predicate Suppressed(v: View, m: string, f: Field) { Priority(v, m) && Numeric(f) }

  predicate Eligible(v: View, i: nat, m: string)
    requires i < |v.channels|
  {
    Priority(v, m) ==> IsTiered(v.channels[i].data, m)
  }

  /** The last eligible channel of its name; it overwrites the others of that name. */
  predicate Wins(v: View, i: nat, m: string)
    requires i < |v.channels|
  {
    && Eligible(v, i, m)
    && forall j | i < j < |v.channels| && Eligible(v, j, m) :: v.channels[j].name != v.channels[i].name
  }

  /** Channel i has a value that differs from the local one or has no local counterpart. */
  predicate Differs(v: View, i: nat, m: string, f: Field)
    requires i < |v.channels|
  {
    var l, u := At(v.local, m, f), At(v.channels[i].data, m, f);
    u.Some? && (l.None? || !ValuesEqual(l.value, u.value))
  }

  function CellOf(l: Option<Value>, u: Option<Value>): Cell {
    if u.None? then if l.None? then SAME else Nil
    else if l.None? || !ValuesEqual(l.value, u.value) then Val(u.value)
    else SAME
  }

  /** The placeholder prices of an unconfigured pricing page are not to be trusted. */
  predicate Trusted(t: Table, m: string) {
    var r, c := At(t, m, ModelRatio), At(t, m, CompletionRatio);
    !(r.Some? && c.Some? && r.value.Num? && c.value.Num?
      && NearlyEqual(r.value.f, Fin(37.5)) && NearlyEqual(c.value.f, Fin(1.0)))
  }

  /** Trust is kept per name, so the last channel of a name decides. */
  function TrustedName(channels: seq<Channel>, name: string, m: string): bool {
    if channels == [] then false
    else
      var c := channels[|channels| - 1];
      if c.name == name then Trusted(c.data, m) else TrustedName(channels[..|channels| - 1], name, m)
  }

  predicate DistinctNames(channels: seq<Channel>) {
    forall i, j | 0 <= i < j < |channels| :: channels[i].name != channels[j].name
  }

  // ----- First pass -----

  /** What one channel contributes to an item. */
  datatype Entry = Entry(name: string, eligible: bool, differs: bool, cell: Cell, trusted: bool)

  function EntryOf(v: View, m: string, f: Field, i: nat): Entry
    requires i < |v.channels|
  {
    var c := v.channels[i];
    Entry(c.name, Eligible(v, i, m), Differs(v, i, m, f), CellOf(At(v.local, m, f), At(c.data, m, f)),
          TrustedName(v.channels, c.name, m))
  }

  function Column(v: View, m: string, f: Field): (col: seq<Entry>)
    ensures |col| == |v.channels| && forall i | 0 <= i < |col| :: col[i] == EntryOf(v, m, f, i)
  {
    seq(|v.channels|, i requires 0 <= i < |v.channels| => EntryOf(v, m, f, i))
  }

  ghost predicate SomeDiffers(col: seq<Entry>) {
    exists i | 0 <= i < |col| :: col[i].eligible && col[i].differs
  }

  ghost predicate Reportable(v: View, m: string, f: Field) {
    !Suppressed(v, m, f) && SomeDiffers(Column(v, m, f))
  }

  /** The last eligible entry of its name. */
  ghost predicate Last(col: seq<Entry>, i: nat)
    requires i < |col|
  {
    col[i].eligible && forall j | i < j < |col| && col[j].eligible :: col[j].name != col[i].name
  }

  ghost function EligibleNames(col: seq<Entry>): set<string> {
    set i | 0 <= i < |col| && col[i].eligible :: col[i].name
  }

  ghost predicate RecordedFor(e: Entry, item: Item) {
    && e.name in item.upstreams && item.upstreams[e.name] == e.cell
    && e.name in item.confidence && item.confidence[e.name] == e.trusted
  }

  /** The item holds exactly the names of the eligible channels, each with its last entry. */
  ghost predicate Recorded(col: seq<Entry>, item: Item) {
    && item.upstreams.Keys == item.confidence.Keys == EligibleNames(col)
    && forall i | 0 <= i < |col| && Last(col, i) :: RecordedFor(col[i], item)
  }

  function Record(e: Entry, item: Item): Item {
    item.(upstreams := item.upstreams[e.name := e.cell], confidence := item.confidence[e.name := e.trusted])
  }

  lemma LastBefore(done: seq<Entry>, e: Entry, i: nat)
    requires i < |done| && Last(done + [e], i)
    ensures Last(done, i) && (e.eligible ==> e.name != done[i].name)
  {
    var col := done + [e];
    assert col[|done|] == e && col[i] == done[i];
    forall j | i < j < |done| && done[j].eligible ensures done[j].name != done[i].name { assert col[j] == done[j]; }
  }

  lemma EligibleNamesStep(done: seq<Entry>, e: Entry)
    ensures EligibleNames(done + [e]) == EligibleNames(done) + (if e.eligible then {e.name} else {})
  {
    var col := done + [e];
    assert col[|done|] == e && forall i | 0 <= i < |done| :: col[i] == done[i];
  }

  lemma RecordedPush(done: seq<Entry>, e: Entry, item: Item, i: nat)
    requires Recorded(done, item) && i < |done| && Last(done + [e], i)
    ensures RecordedFor(done[i], if e.eligible then Record(e, item) else item)
  {
    LastBefore(done, e, i);
    assert RecordedFor(done[i], item);
  }

  lemma RecordedKeys(done: seq<Entry>, e: Entry, item: Item)
    requires Recorded(done, item)
    ensures var item' := if e.eligible then Record(e, item) else item;
      item'.upstreams.Keys == item'.confidence.Keys == EligibleNames(done + [e])
  {
    EligibleNamesStep(done, e);
  }

  lemma RecordedLast(e: Entry, item: Item)
    ensures RecordedFor(e, Record(e, item))
  {
  }

  lemma RecordedAppend(done: seq<Entry>, e: Entry, item: Item)
    requires Recorded(done, item)
    ensures Recorded(done + [e], if e.eligible then Record(e, item) else item)
  {
    var item', done' := if e.eligible then Record(e, item) else item, done + [e];
    RecordedKeys(done, e, item);
    forall i | 0 <= i < |done'| && Last(done', i) ensures RecordedFor(done'[i], item') {
      if i < |done| { RecordedPush(done, e, item, i); } else { RecordedLast(e, item); }
    }
  }

  lemma RecordedStep(col: seq<Entry>, n: nat, item: Item)
    requires n < |col| && Recorded(col[..n], item)
    ensures Recorded(col[..n + 1], if col[n].eligible then Record(col[n], item) else item)
  {
    assert col[..n + 1] == col[..n] + [col[n]];
    RecordedAppend(col[..n], col[n], item);
  }

  lemma {:induction false} LastOfName(col: seq<Entry>, k: string)
    requires k in EligibleNames(col)
    ensures exists i | 0 <= i < |col| :: Last(col, i) && col[i].name == k
    decreases |col|
  {
    var n := |col| - 1;
    if col[n].eligible && col[n].name == k {
      assert Last(col, n);
    } else {
      var before := col[..n];
      var i :| 0 <= i < |col| && col[i].eligible && col[i].name == k;
      assert before[i] == col[i];
      LastOfName(before, k);
      var j :| 0 <= j < |before| && Last(before, j) && before[j].name == k;
      assert forall h | j < h < n && col[h].eligible :: before[h].name != before[j].name;
      assert Last(col, j);
    }
  }

  lemma SomeDiffersStep(col: seq<Entry>, n: nat)
    requires n < |col|
    ensures SomeDiffers(col[..n + 1]) <==> SomeDiffers(col[..n]) || (col[n].eligible && col[n].differs)
  {
  }

  /** One channel's cell, decided branch by branch, and the two flags it may raise. */
  method BuildCell(l: Option<Value>, u: Option<Value>) returns (cell: Cell, present: bool, differs: bool)
    ensures cell == CellOf(l, u)
    ensures present == u.Some?
    ensures l.Some? ==> differs == (u.Some? && !ValuesEqual(l.value, u.value))
  {
    cell := if u.Some? then Val(u.value) else Nil;
    present, differs := false, false;
    if u.Some? {
      present := true;
      if l.Some? && !ValuesEqual(l.value, u.value) {
        differs := true;
      } else if l.Some? {
        cell := SAME;
      }
    }
    if cell == Nil && l.None? {
      cell := SAME;
    }
    if l.None? && cell != Nil && cell != SAME {
      differs := true;
    }
  }

  ghost predicate TrustOf(v: View, m: string, trust: map<string, bool>) {
    forall i | 0 <= i < |v.channels| ::
      v.channels[i].name in trust && trust[v.channels[i].name] == TrustedName(v.channels, v.channels[i].name, m)
  }

  method ComputeTrust(v: View, m: string) returns (trust: map<string, bool>)
    ensures TrustOf(v, m, trust)
  {
    trust := map[];
    for i := 0 to |v.channels|
      invariant forall j | 0 <= j < i :: v.channels[j].name in trust
      invariant forall k | k in trust :: trust[k] == TrustedName(v.channels[..i], k, m)
    {
      assert v.channels[..i + 1][..i] == v.channels[..i];
      trust := trust[v.channels[i].name := Trusted(v.channels[i].data, m)];
    }
    assert v.channels[..|v.channels|] == v.channels;
  }

  method BuildItem(v: View, m: string, f: Field, priority: bool, trust: map<string, bool>)
    returns (item: Item, shown: bool)
    requires priority == Priority(v, m) && TrustOf(v, m, trust)
    ensures item.current == At(v.local, m, f) && Recorded(Column(v, m, f), item)
    ensures shown <==> SomeDiffers(Column(v, m, f))
  {
    var l := At(v.local, m, f);
    item := Item(l, map[], map[]);
    var hasUpstream, hasDifference := false, false;
    ghost var col := Column(v, m, f);
    for i := 0 to |v.channels|
      invariant item.current == l && Recorded(col[..i], item)
      invariant (if l.Some? then hasDifference else hasUpstream) <==> SomeDiffers(col[..i])
    {
      RecordedStep(col, i, item);
      SomeDiffersStep(col, i);
      var c := v.channels[i];
      if priority && !IsTiered(c.data, m) { continue; }
      var cell, present, differs := BuildCell(l, At(c.data, m, f));
      hasUpstream := hasUpstream || present;
      hasDifference := hasDifference || differs;
      item := item.(upstreams := item.upstreams[c.name := cell],
                    confidence := item.confidence[c.name := trust[c.name]]);
    }
    assert col[..|v.channels|] == col;
    shown := if l.Some? then hasDifference else hasUpstream;
  }

  method ComputePriority(v: View, m: string) returns (priority: bool)
    ensures priority == Priority(v, m)
  {
    priority := IsTiered(v.local, m);
    for i := 0 to |v.channels|
      invariant priority <==> IsTiered(v.local, m) || exists j | 0 <= j < i :: IsTiered(v.channels[j].data, m)
    {
      if IsTiered(v.channels[i].data, m) { priority := true; }
    }
  }

  /** The items of one model for the given fields. */
  method BuildRow(v: View, m: string, fields: seq<Field>) returns (row: map<Field, Item>)
    ensures forall f :: f in row <==> f in fields && Reportable(v, m, f)
    ensures forall f | f in row :: row[f].current == At(v.local, m, f) && Recorded(Column(v, m, f), row[f])
  {
    var priority := ComputePriority(v, m);
    var trust := ComputeTrust(v, m);
    row := map[];
    for i := 0 to |fields|
      invariant forall f :: f in row <==> f in fields[..i] && Reportable(v, m, f)
      invariant forall f | f in row :: row[f].current == At(v.local, m, f) && Recorded(Column(v, m, f), row[f])
    {
      var f := fields[i];
      assert fields[..i + 1] == fields[..i] + [f];
      if priority && Numeric(f) {
        assert !Reportable(v, m, f);
        continue;
      }
      var item, shown := BuildItem(v, m, f, priority, trust);
      assert shown <==> Reportable(v, m, f);
      if shown { row := row[f := item]; }
    }
    assert fields[..|fields|] == fields;
  }

  predicate InReport(d: Report, m: string, f: Field) { m in d && f in d[m] }

  /** Every model that some table mentions. */
  function AllModels(v: View): set<string> {
    Names(v.local) + set i, m | 0 <= i < |v.channels| && m in Names(v.channels[i].data) :: m
  }

  /** The items reported for a model, none if it is not listed. */
  function RowIn(d: Report, m: string): map<Field, Item> { if m in d then d[m] else map[] }

  ghost predicate RawRow(v: View, m: string, row: map<Field, Item>) {
    && (forall f :: f in row <==> Reportable(v, m, f))
    && (forall f | f in row :: row[f].current == At(v.local, m, f) && Recorded(Column(v, m, f), row[f]))
  }

  ghost predicate RawReport(v: View, d: Report) {
    forall m :: RawRow(v, m, RowIn(d, m))
  }

  lemma ReportableIsMentioned(v: View, m: string, f: Field)
    requires Reportable(v, m, f)
    ensures m in AllModels(v)
  {
    var col := Column(v, m, f);
    var i :| 0 <= i < |col| && col[i].eligible && col[i].differs;
    assert m in Names(v.channels[i].data);
  }

  lemma UnmentionedRow(v: View, m: string)
    requires m !in AllModels(v)
    ensures RawRow(v, m, map[])
  {
    forall f ensures !Reportable(v, m, f) {
      if Reportable(v, m, f) { ReportableIsMentioned(v, m, f); }
    }
  }

  method BuildModel(v: View, m: string) returns (row: map<Field, Item>)
    ensures RawRow(v, m, row)
  {
    row := BuildRow(v, m, FIELDS);
    forall f: Field ensures f in FIELDS { FieldsComplete(f); }
  }

  function SetRow(d: Report, m: string, row: map<Field, Item>): Report {
    if row == map[] then d - {m} else d[m := row]
  }

  ghost predicate FirstDone(v: View, d: Report, todo: set<string>) {
    forall m | m !in todo :: RawRow(v, m, RowIn(d, m))
  }

  lemma FirstStep(v: View, d: Report, todo: set<string>, m: string, row: map<Field, Item>)
    requires FirstDone(v, d, todo) && RawRow(v, m, row)
    ensures FirstDone(v, SetRow(d, m, row), todo - {m})
  {
  }

  /** The first pass: every model, in any order. */
  method FirstPass(v: View) returns (d: Report)
    ensures RawReport(v, d)
  {
    d := map[];
    var todo := AllModels(v);
    forall m | m !in todo ensures RawRow(v, m, RowIn(d, m)) { UnmentionedRow(v, m); }
    while todo != {}
      invariant FirstDone(v, d, todo)
      decreases |todo|
    {
      var m :| m in todo;
      var row := BuildModel(v, m);
      FirstStep(v, d, todo, m, row);
      d := SetRow(d, m, row);
      todo := todo - {m};
    }
  }

  // ----- Second pass -----

  predicate Visible(cell: Cell) { cell != Nil && cell != SAME }

  /** The channels that have a visible difference anywhere in the report. */
  function VisibleNames(d: Report): set<string> {
    set m, f, k | m in d && f in d[m] && k in d[m][f].upstreams && Visible(d[m][f].upstreams[k]) :: k
  }

  function Restrict(item: Item, names: set<string>): Item {
    item.(upstreams := map k | k in item.upstreams && k in names :: item.upstreams[k],
          confidence := map k | k in item.confidence && k in names :: item.confidence[k])
  }

  predicate Worthwhile(item: Item) {
    exists k | k in item.upstreams :: item.upstreams[k] != SAME
  }

  function PrunedRow(row: map<Field, Item>, names: set<string>): map<Field, Item> {
    map f | f in row && Worthwhile(Restrict(row[f], names)) :: Restrict(row[f], names)
  }

  method PruneRow(row: map<Field, Item>, names: set<string>) returns (row': map<Field, Item>)
    ensures row' == PrunedRow(row, names)
  {
    row' := row;
    var todo := row.Keys;
    while todo != {}
      invariant todo <= row.Keys
      invariant row' == map f | f in row && (f in todo || Worthwhile(Restrict(row[f], names))) ::
        if f in todo then row[f] else Restrict(row[f], names)
      decreases |todo|
    {
      var f :| f in todo;
      todo := todo - {f};
      var item := Restrict(row'[f], names);
      if Worthwhile(item) {
        row' := row'[f := item];
      } else {
        row' := row' - {f};
      }
    }
  }

  ghost predicate SecondDone(d: Report, d': Report, names: set<string>, todo: set<string>) {
    forall m :: RowIn(d', m) == if m in todo then RowIn(d, m) else PrunedRow(RowIn(d, m), names)
  }

  lemma SecondStep(d: Report, d': Report, names: set<string>, todo: set<string>, m: string)
    requires SecondDone(d, d', names, todo) && m in todo
    ensures SecondDone(d, SetRow(d', m, PrunedRow(RowIn(d, m), names)), names, todo - {m})
  {
  }

  lemma SecondStart(d: Report, names: set<string>)
    ensures SecondDone(d, d, names, d.Keys)
  {
  }

  ghost predicate NoEmptyRows(d: Report, todo: set<string>) { forall m | m in d && m !in todo :: d[m] != map[] }

  lemma NoEmptyStep(d: Report, todo: set<string>, m: string, row: map<Field, Item>)
    requires NoEmptyRows(d, todo)
    ensures NoEmptyRows(SetRow(d, m, row), todo - {m})
  {
  }

  method SecondPass(d: Report) returns (d': Report)
    ensures SecondDone(d, d', VisibleNames(d), {})
    ensures forall m | m in d' :: d'[m] != map[]
  {
    var names := VisibleNames(d);
    d' := d;
    var todo := d.Keys;
    SecondStart(d, names);
    while todo != {}
      invariant SecondDone(d, d', names, todo) && NoEmptyRows(d', todo)
      decreases |todo|
    {
      var m :| m in todo;
      var row := PruneRow(RowIn(d', m), names);
      SecondStep(d, d', names, todo, m);
      NoEmptyStep(d', todo, m, row);
      d' := SetRow(d', m, row);
      todo := todo - {m};
    }
  }

  // ----- The report is exact -----

  /** Channel i's value for (m, f) counts, differs, is not overwritten and is not the word
      "same". */
  ghost predicate Shows(v: View, i: nat, m: string, f: Field) {
    && i < |v.channels| && !Suppressed(v, m, f) && Wins(v, i, m) && Differs(v, i, m, f)
    && At(v.channels[i].data, m, f) != Some(SAME_WORD)
  }

  ghost predicate NameShows(v: View, k: string) {
    exists i: nat, m, f :: Shows(v, i, m, f) && v.channels[i].name == k
  }

  ghost predicate Reported(v: View, m: string, f: Field) { exists i: nat :: Shows(v, i, m, f) }

  /** Some channel differs, and some name that visibly differs somewhere has a cell here that
      is not "same". */
  ghost predicate Kept(v: View, m: string, f: Field) {
    Reportable(v, m, f) && exists i | 0 <= i < |v.channels| ::
      Wins(v, i, m) && EntryOf(v, m, f, i).cell != SAME && NameShows(v, v.channels[i].name)
  }

  ghost predicate NamesEligible(v: View, m: string, k: string) {
    exists i | 0 <= i < |v.channels| :: Eligible(v, i, m) && v.channels[i].name == k
  }

  ghost predicate ExactItem(v: View, m: string, f: Field, item: Item) {
    && item.current == At(v.local, m, f)
    && item.upstreams.Keys == item.confidence.Keys
    && (forall k :: k in item.upstreams <==> NamesEligible(v, m, k) && NameShows(v, k))
    && (forall i | 0 <= i < |v.channels| && Wins(v, i, m) && v.channels[i].name in item.upstreams ::
          RecordedFor(EntryOf(v, m, f, i), item))
  }

  ghost predicate Exact(v: View, d: Report) {
    && (forall m, f :: InReport(d, m, f) <==> Kept(v, m, f))
    && (forall m, f | InReport(d, m, f) :: ExactItem(v, m, f, d[m][f]))
    && (forall m | m in d :: d[m] != map[])
  }

  lemma ShowsIsVisible(v: View, m: string, f: Field, i: nat)
    requires i < |v.channels| && !Suppressed(v, m, f) && Wins(v, i, m)
    ensures Shows(v, i, m, f) <==> Visible(EntryOf(v, m, f, i).cell)
  {
  }

  lemma VisibleInItem(v: View, m: string, f: Field, i: nat, item: Item)
    requires i < |v.channels| && Recorded(Column(v, m, f), item) && !Suppressed(v, m, f) && Wins(v, i, m)
    ensures RecordedFor(EntryOf(v, m, f, i), item)
    ensures Visible(item.upstreams[v.channels[i].name]) <==> Shows(v, i, m, f)
  {
    assert Last(Column(v, m, f), i);
    ShowsIsVisible(v, m, f, i);
  }

  lemma WinnerOfName(v: View, m: string, f: Field, k: string) returns (i: nat)
    requires k in EligibleNames(Column(v, m, f))
    ensures i < |v.channels| && Wins(v, i, m) && v.channels[i].name == k
  {
    var col := Column(v, m, f);
    LastOfName(col, k);
    i :| 0 <= i < |col| && Last(col, i) && col[i].name == k;
    forall j | i < j < |v.channels| && Eligible(v, j, m) ensures v.channels[j].name != k { assert col[j].eligible; }
  }

  lemma VisibleNamesExact(v: View, d: Report, k: string)
    requires RawReport(v, d)
    ensures k in VisibleNames(d) <==> NameShows(v, k)
  {
    if k in VisibleNames(d) {
      var m, f :| m in d && f in d[m] && k in d[m][f].upstreams && Visible(d[m][f].upstreams[k]);
      assert RawRow(v, m, RowIn(d, m));
      assert f in RowIn(d, m);
      var i := WinnerOfName(v, m, f, k);
      VisibleInItem(v, m, f, i, d[m][f]);
    }
    if NameShows(v, k) {
      var i: nat, m, f :| Shows(v, i, m, f) && v.channels[i].name == k;
      ShowsReportable(v, m, f, i);
      assert RawRow(v, m, RowIn(d, m));
      assert f in RowIn(d, m);
      VisibleInItem(v, m, f, i, d[m][f]);
    }
  }

  lemma ShowsReportable(v: View, m: string, f: Field, i: nat)
    requires Shows(v, i, m, f)
    ensures Reportable(v, m, f)
  {
    var col := Column(v, m, f);
    assert col[i].eligible && col[i].differs;
  }

  ghost predicate NamesShown(v: View, names: set<string>) { forall k :: k in names <==> NameShows(v, k) }

  lemma WorthwhileIff(v: View, m: string, f: Field, item: Item, names: set<string>)
    requires Reportable(v, m, f) && Recorded(Column(v, m, f), item) && NamesShown(v, names)
    ensures Worthwhile(Restrict(item, names)) <==> Kept(v, m, f)
  {
    var kept := Restrict(item, names);
    if k :| k in kept.upstreams && kept.upstreams[k] != SAME {
      var i := WinnerOfName(v, m, f, k);
      VisibleInItem(v, m, f, i, item);
    }
    if Kept(v, m, f) {
      var i :| 0 <= i < |v.channels| && Wins(v, i, m) && EntryOf(v, m, f, i).cell != SAME
            && NameShows(v, v.channels[i].name);
      VisibleInItem(v, m, f, i, item);
      assert v.channels[i].name in kept.upstreams;
    }
  }

  lemma EligibleNamesExact(v: View, m: string, f: Field, k: string)
    ensures k in EligibleNames(Column(v, m, f)) <==> NamesEligible(v, m, k)
  {
    var col := Column(v, m, f);
    if NamesEligible(v, m, k) {
      var i :| 0 <= i < |v.channels| && Eligible(v, i, m) && v.channels[i].name == k;
      assert col[i].eligible;
    }
    if k in EligibleNames(col) {
      var i :| 0 <= i < |col| && col[i].eligible && col[i].name == k;
      assert Eligible(v, i, m);
    }
  }

  lemma RestrictedExact(v: View, m: string, f: Field, raw: Item, names: set<string>)
    requires NamesShown(v, names) && !Suppressed(v, m, f)
    requires raw.current == At(v.local, m, f) && Recorded(Column(v, m, f), raw)
    ensures ExactItem(v, m, f, Restrict(raw, names))
  {
    var item := Restrict(raw, names);
    forall k ensures k in item.upstreams <==> NamesEligible(v, m, k) && NameShows(v, k) {
      EligibleNamesExact(v, m, f, k);
    }
    forall i | 0 <= i < |v.channels| && Wins(v, i, m) && v.channels[i].name in item.upstreams
      ensures RecordedFor(EntryOf(v, m, f, i), item)
    {
      VisibleInItem(v, m, f, i, raw);
    }
  }

  /** The final pass keeps a pair exactly when it is to be kept, and what it keeps is exact. */
  lemma PrunedPair(v: View, row: map<Field, Item>, names: set<string>, m: string, f: Field)
    requires NamesShown(v, names) && RawRow(v, m, row)
    ensures f in PrunedRow(row, names) <==> Kept(v, m, f)
    ensures f in PrunedRow(row, names) ==> ExactItem(v, m, f, PrunedRow(row, names)[f])
  {
    if f in row {
      WorthwhileIff(v, m, f, row[f], names);
      RestrictedExact(v, m, f, row[f], names);
    }
  }

  lemma ReportExact(v: View, d: Report, d': Report)
    requires RawReport(v, d)
    requires SecondDone(d, d', VisibleNames(d), {}) && forall m | m in d' :: d'[m] != map[]
    ensures Exact(v, d')
  {
    var names := VisibleNames(d);
    forall k ensures k in names <==> NameShows(v, k) { VisibleNamesExact(v, d, k); }
    forall m, f ensures InReport(d', m, f) <==> Kept(v, m, f)
                ensures InReport(d', m, f) ==> ExactItem(v, m, f, d'[m][f])
    {
      assert RawRow(v, m, RowIn(d, m));
      PrunedPair(v, RowIn(d, m), names, m, f);
      assert RowIn(d', m) == PrunedRow(RowIn(d, m), names);
      assert InReport(d', m, f) <==> f in RowIn(d', m);
    }
  }

  ghost function NormalisedView(local: Table, channels: seq<Channel>): (v: View)
    ensures |v.channels| == |channels|
    ensures forall i | 0 <= i < |channels| ::
              v.channels[i] == Channel(channels[i].name, EffectiveTable(channels[i].data))
  {
    View(EffectiveTable(local),
         seq(|channels|, i requires 0 <= i < |channels| => Channel(channels[i].name, EffectiveTable(channels[i].data))))
  }

  /** Normalised tables: each row is empty or in one of the regimes. */
  ghost predicate Regular(t: Table) {
    forall m ::
      RowOf(t, m) == map[] || TieredRegime(RowOf(t, m)) || FixedRegime(RowOf(t, m)) || TokenRegime(RowOf(t, m))
  }

  ghost predicate RegularView(v: View) {
    Regular(v.local) && forall i | 0 <= i < |v.channels| :: Regular(v.channels[i].data)
  }

  /** buildDifferences, for any channels, also of one name. A pair is in the report exactly when
      it is `Kept`; its item lists exactly the names that have an eligible channel and visibly
      differ somewhere, each with the cell and trust of the channel that overwrites the others
      of that name. With distinct names `DistinctKept` makes this plainer. */
  method BuildDifferences(local: Table, channels: seq<Channel>) returns (d: Report)
    ensures Exact(NormalisedView(local, channels), d) && RegularView(NormalisedView(local, channels))
  {
    var local' := Effective(local);
    var channels': seq<Channel> := [];
    for i := 0 to |channels|
      invariant |channels'| == i
      invariant forall j | 0 <= j < i :: channels'[j] == Channel(channels[j].name, EffectiveTable(channels[j].data))
    {
      var data := Effective(channels[i].data);
      channels' := channels' + [Channel(channels[i].name, data)];
    }
    var v := View(local', channels');
    assert v == NormalisedView(local, channels);
    var raw := FirstPass(v);
    d := SecondPass(raw);
    ReportExact(v, raw, d);
    NormalisedViewRegular(local, channels);
  }

  // ----- Normalised tables and distinct names -----

  lemma RegularRow(t: Table, m: string)
    requires Regular(t)
    ensures IsTiered(t, m) <==> At(t, m, BillingExpr).Some?
    ensures forall f | f != BillingExpr :: At(t, m, f) != Some(SAME_WORD)
  {
    var row := RowOf(t, m);
    assert forall f :: f in row <==> At(t, m, f).Some?;
    assert forall f | f in row :: At(t, m, f) == Some(row[f]);
  }

  lemma NormalisedRegular(t: Table)
    ensures Regular(EffectiveTable(t))
  {
    forall m ensures RowOf(EffectiveTable(t), m) == map[] || TieredRegime(RowOf(EffectiveTable(t), m))
                  || FixedRegime(RowOf(EffectiveTable(t), m)) || TokenRegime(RowOf(EffectiveTable(t), m)) {
      EffectiveTableRow(t, m);
      ExactlyOneRegime(RowOf(t, m));
    }
  }

  lemma NormalisedViewRegular(local: Table, channels: seq<Channel>)
    ensures RegularView(NormalisedView(local, channels))
  {
    NormalisedRegular(local);
    forall i | 0 <= i < |channels| ensures Regular(EffectiveTable(channels[i].data)) {
      NormalisedRegular(channels[i].data);
    }
  }

  lemma EligibleWins(v: View, i: nat, m: string)
    requires DistinctNames(v.channels) && i < |v.channels| && Eligible(v, i, m)
    ensures Wins(v, i, m)
  {
  }

  lemma ShowsIsKept(v: View, m: string, f: Field, i: nat)
    requires Shows(v, i, m, f)
    ensures Kept(v, m, f)
  {
    ShowsReportable(v, m, f, i);
    assert NameShows(v, v.channels[i].name);
    assert EntryOf(v, m, f, i).cell != SAME;
  }

  /** With distinct names, over normalised tables, a difference in anything but an expression
      always shows. */
  lemma NumbersShow(v: View, m: string, f: Field)
    requires RegularView(v) && DistinctNames(v.channels) && Reportable(v, m, f) && f != BillingExpr
    ensures Reported(v, m, f)
  {
    var col := Column(v, m, f);
    var i :| 0 <= i < |col| && col[i].eligible && col[i].differs;
    RegularRow(v.channels[i].data, m);
    EligibleWins(v, i, m);
    assert Shows(v, i, m, f);
  }

  /** An eligible channel without a value where the local side has one: only for numbers. */
  lemma NilOnlyForNumbers(v: View, m: string, f: Field, i: nat)
    requires RegularView(v) && i < |v.channels| && Eligible(v, i, m) && EntryOf(v, m, f, i).cell == Nil
    ensures f != BillingExpr
  {
    RegularRow(v.local, m);
    RegularRow(v.channels[i].data, m);
  }

  lemma DistinctShows(v: View, m: string, f: Field)
    requires RegularView(v) && DistinctNames(v.channels)
    ensures Kept(v, m, f) <==> !Suppressed(v, m, f) && exists i | 0 <= i < |v.channels| ::
              Eligible(v, i, m) && Differs(v, i, m, f) && At(v.channels[i].data, m, f) != Some(SAME_WORD)
  {
    if Kept(v, m, f) {
      var i :| 0 <= i < |v.channels| && Wins(v, i, m) && EntryOf(v, m, f, i).cell != SAME
            && NameShows(v, v.channels[i].name);
      if EntryOf(v, m, f, i).cell == Nil {
        NilOnlyForNumbers(v, m, f, i);
        NumbersShow(v, m, f);
        var j: nat :| Shows(v, j, m, f);
        assert Eligible(v, j, m);
      } else {
        ShowsIsVisible(v, m, f, i);
        assert Eligible(v, i, m);
      }
    }
    forall i | 0 <= i < |v.channels| && !Suppressed(v, m, f) && Eligible(v, i, m) && Differs(v, i, m, f)
               && At(v.channels[i].data, m, f) != Some(SAME_WORD)
      ensures Kept(v, m, f)
    {
      EligibleWins(v, i, m);
      ShowsIsKept(v, m, f, i);
    }
  }

  /** The table prices the model by an expression. */
  ghost predicate ByExpression(t: Table, m: string) { At(t, m, BillingMode) == Some(Str("tiered_expr")) }

  /** Some side prices the model by an expression. */
  ghost predicate SomeExpression(v: View, m: string) {
    ByExpression(v.local, m) || exists j | 0 <= j < |v.channels| :: ByExpression(v.channels[j].data, m)
  }

  /** Channel i has a value for the pair that is new or different, and does not read "same"; if
      some side prices by an expression, so does channel i. */
  ghost predicate Worth(v: View, i: nat, m: string, f: Field)
    requires i < |v.channels|
  {
    var l, u := At(v.local, m, f), At(v.channels[i].data, m, f);
    && u.Some? && u.value != Str("same") && (l.None? || Apart(l.value, u.value))
    && (SomeExpression(v, m) ==> ByExpression(v.channels[i].data, m))
  }

  /** Over normalised tables, with distinct names, a pair is reported exactly when some channel
      has a value worth showing and, if some side prices the model by an expression, the field
      is mode or expression. */
  lemma DistinctKept(v: View, m: string, f: Field)
    requires RegularView(v) && DistinctNames(v.channels)
    ensures Kept(v, m, f) <==> && (SomeExpression(v, m) ==> f == BillingMode || f == BillingExpr)
                               && exists i | 0 <= i < |v.channels| :: Worth(v, i, m, f)
  {
    DistinctShows(v, m, f);
    PriorityIs(v, m);
    forall i | 0 <= i < |v.channels|
      ensures Worth(v, i, m, f) <==>
              Eligible(v, i, m) && Differs(v, i, m, f) && At(v.channels[i].data, m, f) != Some(SAME_WORD)
    {
      WorthIs(v, i, m, f);
    }
  }

  lemma PriorityIs(v: View, m: string)
    ensures Priority(v, m) <==> SomeExpression(v, m)
  {
    if j :| 0 <= j < |v.channels| && IsTiered(v.channels[j].data, m) { assert ByExpression(v.channels[j].data, m); }
    if j :| 0 <= j < |v.channels| && ByExpression(v.channels[j].data, m) { assert IsTiered(v.channels[j].data, m); }
  }

  lemma WorthIs(v: View, i: nat, m: string, f: Field)
    requires i < |v.channels|
    ensures Worth(v, i, m, f) <==>
            Eligible(v, i, m) && Differs(v, i, m, f) && At(v.channels[i].data, m, f) != Some(SAME_WORD)
  {
    PriorityIs(v, m);
    var l, u := At(v.local, m, f), At(v.channels[i].data, m, f);
    if l.Some? && u.Some? { ValuesEqualIff(l.value, u.value); }
  }

  lemma {:induction false} TrustedNameIs(channels: seq<Channel>, i: nat, m: string)
    requires DistinctNames(channels) && i < |channels|
    ensures TrustedName(channels, channels[i].name, m) == Trusted(channels[i].data, m)
    decreases |channels|
  {
    if i < |channels| - 1 { TrustedNameIs(channels[..|channels| - 1], i, m); }
  }

  lemma RegularPrice(t: Table, m: string)
    requires Regular(t) && At(t, m, ModelPrice).Some?
    ensures !ByExpression(t, m)
  {
    var row := RowOf(t, m);
    assert ModelPrice in row;
    assert BillingMode in row && row[BillingMode] == RATIO_MODE;
    assert At(t, m, BillingMode) == Some(row[BillingMode]);
  }

  /** One channel, and a fixed price for the model on both sides: the price is reported exactly
      when the two lie at least 1e-9 apart. */
  lemma ChangedPriceReported(v: View, m: string, x: real, y: real)
    requires RegularView(v) && |v.channels| == 1
    requires At(v.local, m, ModelPrice) == Some(Num(Fin(x)))
    requires At(v.channels[0].data, m, ModelPrice) == Some(Num(Fin(y)))
    ensures Kept(v, m, ModelPrice) <==> x - y >= 0.000000001 || y - x >= 0.000000001
  {
    RegularPrice(v.local, m);
    RegularPrice(v.channels[0].data, m);
    DistinctKept(v, m, ModelPrice);
    assert (exists i | 0 <= i < |v.channels| :: Worth(v, i, m, ModelPrice)) <==> Worth(v, 0, m, ModelPrice);
  }

  /** A channel's own value if that is new or different, nil if it has none where the local side
      has one, else "same". */
  ghost function PlainCell(l: Option<Value>, u: Option<Value>): Cell {
    if u.Some? && (l.None? || Apart(l.value, u.value)) then Val(u.value)
    else if u.None? && l.Some? then Nil
    else Val(Str("same"))
  }

  lemma CellIs(l: Option<Value>, u: Option<Value>)
    ensures CellOf(l, u) == PlainCell(l, u)
  {
    if l.Some? && u.Some? { ValuesEqualIff(l.value, u.value); }
  }

  /** The ratios are the placeholders 37.5 and 1. */
  ghost predicate Placeholders(t: Table, m: string) {
    && At(t, m, ModelRatio).Some? && !Apart(At(t, m, ModelRatio).value, Num(Fin(37.5)))
    && At(t, m, CompletionRatio).Some? && !Apart(At(t, m, CompletionRatio).value, Num(Fin(1.0)))
  }

  lemma TrustedIs(t: Table, m: string)
    ensures Trusted(t, m) <==> !Placeholders(t, m)
  {
    var r, c := At(t, m, ModelRatio), At(t, m, CompletionRatio);
    if r.Some? { ValuesEqualIff(r.value, Num(Fin(37.5))); }
    if c.Some? { ValuesEqualIff(c.value, Num(Fin(1.0))); }
  }

  lemma ListedWins(v: View, m: string, f: Field, item: Item, i: nat)
    requires DistinctNames(v.channels) && ExactItem(v, m, f, item) && i < |v.channels|
    requires v.channels[i].name in item.upstreams
    ensures RecordedFor(EntryOf(v, m, f, i), item)
  {
    var k := v.channels[i].name;
    assert NamesEligible(v, m, k);
    var j :| 0 <= j < |v.channels| && Eligible(v, j, m) && v.channels[j].name == k;
    assert i == j;
    EligibleWins(v, i, m);
  }

  /** Channel i has a value worth showing somewhere. */
  ghost predicate WorthSomewhere(v: View, i: nat)
    requires i < |v.channels|
  {
    exists m, f :: Worth(v, i, m, f) && (SomeExpression(v, m) ==> f == BillingMode || f == BillingExpr)
  }

  /** A reported item lists exactly the channels that have a value worth showing somewhere and
      that price the model by an expression if some side does. */
  lemma ListedIff(v: View, m: string, f: Field, item: Item, i: nat)
    requires DistinctNames(v.channels) && ExactItem(v, m, f, item) && i < |v.channels|
    ensures v.channels[i].name in item.upstreams <==>
            (SomeExpression(v, m) ==> ByExpression(v.channels[i].data, m)) && WorthSomewhere(v, i)
  {
    var k := v.channels[i].name;
    PriorityIs(v, m);
    assert NamesEligible(v, m, k) <==> Eligible(v, i, m);
    assert Eligible(v, i, m) <==> (SomeExpression(v, m) ==> ByExpression(v.channels[i].data, m));
    NameShowsIff(v, i);
  }

  lemma NameShowsIff(v: View, i: nat)
    requires DistinctNames(v.channels) && i < |v.channels|
    ensures NameShows(v, v.channels[i].name) <==> WorthSomewhere(v, i)
  {
    if NameShows(v, v.channels[i].name) {
      var j: nat, m, f :| Shows(v, j, m, f) && v.channels[j].name == v.channels[i].name;
      assert i == j;
      WorthIs(v, i, m, f);
      PriorityIs(v, m);
      assert Worth(v, i, m, f);
    }
    if WorthSomewhere(v, i) {
      var m, f :| Worth(v, i, m, f) && (SomeExpression(v, m) ==> f == BillingMode || f == BillingExpr);
      WorthIs(v, i, m, f);
      PriorityIs(v, m);
      EligibleWins(v, i, m);
      assert Shows(v, i, m, f);
    }
  }

  /** What a reported item says: the local value, and of each channel it lists the cell and
      whether it is trusted, which it is unless its ratios are the placeholders. */
  lemma ItemIs(v: View, m: string, f: Field, item: Item, i: nat)
    requires DistinctNames(v.channels) && ExactItem(v, m, f, item) && i < |v.channels|
    requires v.channels[i].name in item.upstreams
    ensures item.current == At(v.local, m, f)
    ensures item.upstreams[v.channels[i].name] == PlainCell(At(v.local, m, f), At(v.channels[i].data, m, f))
    ensures v.channels[i].name in item.confidence
    ensures item.confidence[v.channels[i].name] <==> !Placeholders(v.channels[i].data, m)
  {
    ListedWins(v, m, f, item, i);
    CellIs(At(v.local, m, f), At(v.channels[i].data, m, f));
    TrustedNameIs(v.channels, i, m);
    TrustedIs(v.channels[i].data, m);
  }

  // ----- When no difference is lost -----

  /** The table's expressions, trimmed, come from the given words. */
  ghost predicate Spoken(t: Table, words: iset<string>) {
    forall n | n in Entries(t, BillingExpr) && Entries(t, BillingExpr)[n].Str? ::
      TrimSpace(Entries(t, BillingExpr)[n].s) in words
  }

  ghost predicate Over(channels: seq<Channel>, names: seq<string>, words: iset<string>) {
    && |channels| == |names|
    && forall i | 0 <= i < |names| :: channels[i].name == names[i] && Spoken(channels[i].data, words)
  }

  /** Whatever the tables of channels with these names say in these words, every difference of
      an eligible channel is reported. */
  ghost predicate NothingLost(names: seq<string>, words: iset<string>) {
    forall local: Table, channels: seq<Channel>, m: string, f: Field
      | Over(channels, names, words) && Reportable(NormalisedView(local, channels), m, f) ::
      Kept(NormalisedView(local, channels), m, f)
  }

  lemma SpokenExpression(t: Table, words: iset<string>, m: string)
    requires Spoken(t, words) && "same" !in words
    ensures At(EffectiveTable(t), m, BillingExpr) != Some(SAME_WORD)
  {
    EffectiveTableRow(t, m);
    var row, e := RowOf(t, m), RowOf(EffectiveTable(t), m);
    if At(EffectiveTable(t), m, BillingExpr).Some? {
      assert BillingExpr in e;
      EffectiveExpression(row);
      assert Entries(t, BillingExpr)[m] == row[BillingExpr];
    }
  }

  lemma NothingLostSafe(names: seq<string>, words: iset<string>)
    requires Distinct(names) && "same" !in words
    ensures NothingLost(names, words)
  {
    forall local: Table, channels: seq<Channel>, m: string, f: Field
      | Over(channels, names, words) && Reportable(NormalisedView(local, channels), m, f)
      ensures Kept(NormalisedView(local, channels), m, f)
    {
      var v := NormalisedView(local, channels);
      NormalisedViewRegular(local, channels);
      assert forall i | 0 <= i < |channels| :: v.channels[i].name == names[i];
      var col := Column(v, m, f);
      var i :| 0 <= i < |col| && col[i].eligible && col[i].differs;
      SpokenExpression(channels[i].data, words, m);
      RegularRow(v.channels[i].data, m);
      EligibleWins(v, i, m);
      ShowsIsKept(v, m, f, i);
    }
  }

  lemma EmptyRow(m: string, f: Field)
    ensures At(EffectiveTable(map[]), m, f) == None
  {
    EffectiveTableRow(map[], m);
    assert RowOf(map[], m) == map[] && Cleaned(map[]) == map[];
    assert f !in RowOf(EffectiveTable(map[]), m);
  }

  /** One channel with a table, the others without any. */
  ghost function Only(names: seq<string>, k: nat, t: Table): seq<Channel> {
    seq(|names|, i requires 0 <= i < |names| => Channel(names[i], if i == k then t else map[]))
  }

  lemma OnlyRows(names: seq<string>, k: nat, t: Table, i: nat, m: string, f: Field)
    requires i < |names|
    ensures At(NormalisedView(map[], Only(names, k, t)).channels[i].data, m, f)
            == if i == k then At(EffectiveTable(t), m, f) else None
  {
    EmptyRow(m, f);
  }

  /** A table that prices just this model, by an expression. */
  function ExpressionTable(m: string, word: string): Table {
    map[BillingMode := map[m := TIERED_MODE], BillingExpr := map[m := Str(word)]]
  }

  /** A table that prices just this model, at a fixed price. */
  function PriceTable(m: string, price: real): Table {
    map[BillingMode := map[m := RATIO_MODE], ModelPrice := map[m := Num(Fin(price))]]
  }

  lemma ExpressionTableAt(m: string, word: string)
    requires word != [] && Bare(word, IsSpace)
    ensures At(EffectiveTable(ExpressionTable(m, word)), m, BillingExpr) == Some(Str(word))
    ensures At(EffectiveTable(ExpressionTable(m, word)), m, BillingMode) == Some(TIERED_MODE)
  {
    var t := ExpressionTable(m, word);
    var row, e := RowOf(t, m), RowOf(EffectiveTable(t), m);
    assert row.Keys == {BillingMode, BillingExpr};
    EffectiveTableRow(t, m);
    RegimeFixed(row);
    assert e[BillingExpr] == Str(word) && e[BillingMode] == TIERED_MODE;
  }

  lemma PriceTableAt(m: string, price: real)
    requires price >= 0.0
    ensures At(EffectiveTable(PriceTable(m, price)), m, ModelPrice) == Some(Num(Fin(price)))
    ensures At(EffectiveTable(PriceTable(m, price)), m, BillingMode) == Some(RATIO_MODE)
  {
    var t := PriceTable(m, price);
    var row, e := RowOf(t, m), RowOf(EffectiveTable(t), m);
    assert row.Keys == {BillingMode, ModelPrice};
    EffectiveTableRow(t, m);
    RegimeFixed(row);
    assert e[ModelPrice] == Num(Fin(price)) && e[BillingMode] == RATIO_MODE;
  }

  /** A new model priced by the expression "same" is not reported, though it has no local
      counterpart. */
  lemma SameIsLost(names: seq<string>, m: string)
    requires names != []
    ensures var v := NormalisedView(map[], Only(names, 0, ExpressionTable(m, "same")));
      Reportable(v, m, BillingExpr) && !Kept(v, m, BillingExpr)
  {
    var t := ExpressionTable(m, "same");
    var v := NormalisedView(map[], Only(names, 0, t));
    ExpressionTableAt(m, "same");
    EmptyRow(m, BillingExpr);
    OnlyRows(names, 0, t, 0, m, BillingMode);
    OnlyRows(names, 0, t, 0, m, BillingExpr);
    var col := Column(v, m, BillingExpr);
    assert IsTiered(v.channels[0].data, m) && col[0].eligible && col[0].differs;
    forall i | 0 <= i < |v.channels| ensures EntryOf(v, m, BillingExpr, i).cell == SAME {
      OnlyRows(names, 0, t, i, m, BillingExpr);
    }
  }

  /** The price of a channel is not reported if a later channel has the same name and none. */
  lemma OverwrittenIsLost(names: seq<string>, i: nat, j: nat, m: string)
    requires i < j < |names| && names[i] == names[j]
    ensures var v := NormalisedView(map[], Only(names, i, PriceTable(m, 1.0)));
      Reportable(v, m, ModelPrice) && !Kept(v, m, ModelPrice)
  {
    var t := PriceTable(m, 1.0);
    var v := NormalisedView(map[], Only(names, i, t));
    PriceTableAt(m, 1.0);
    EmptyRow(m, ModelPrice);
    EmptyRow(m, BillingMode);
    forall k | 0 <= k < |v.channels| ensures !IsTiered(v.channels[k].data, m) {
      OnlyRows(names, i, t, k, m, BillingMode);
    }
    assert !Priority(v, m);
    OnlyRows(names, i, t, i, m, ModelPrice);
    var col := Column(v, m, ModelPrice);
    assert col[i].eligible && col[i].differs;
    forall k | 0 <= k < |v.channels| && Wins(v, k, m) ensures EntryOf(v, m, ModelPrice, k).cell == SAME {
      assert Eligible(v, j, m) && v.channels[j].name == v.channels[i].name;
      OnlyRows(names, i, t, k, m, ModelPrice);
    }
  }

  lemma Loses(names: seq<string>, words: iset<string>, channels: seq<Channel>, m: string, f: Field)
    requires Over(channels, names, words)
    requires Reportable(NormalisedView(map[], channels), m, f) && !Kept(NormalisedView(map[], channels), m, f)
    ensures !NothingLost(names, words)
  {
  }

  lemma OverOnly(names: seq<string>, k: nat, t: Table, words: iset<string>)
    requires Spoken(t, words)
    ensures Over(Only(names, k, t), names, words)
  {
    assert Spoken(map[], words);
  }

  lemma SameSpoken(m: string, words: iset<string>)
    requires "same" in words
    ensures Spoken(ExpressionTable(m, "same"), words)
  {
    TrimBare("same", IsSpace);
  }

  lemma PriceSpoken(m: string, words: iset<string>)
    ensures Spoken(PriceTable(m, 1.0), words)
  {
    assert Entries(PriceTable(m, 1.0), BillingExpr) == map[];
  }

  lemma SameLoses(names: seq<string>, words: iset<string>, m: string)
    requires names != [] && "same" in words
    ensures !NothingLost(names, words)
  {
    SameIsLost(names, m);
    SameSpoken(m, words);
    OverOnly(names, 0, ExpressionTable(m, "same"), words);
    Loses(names, words, Only(names, 0, ExpressionTable(m, "same")), m, BillingExpr);
  }

  lemma OverwrittenLoses(names: seq<string>, words: iset<string>, m: string)
    requires !Distinct(names)
    ensures !NothingLost(names, words)
  {
    var i, j :| 0 <= i < j < |names| && names[i] == names[j];
    OverwrittenIsLost(names, i, j, m);
    PriceSpoken(m, words);
    OverOnly(names, i, PriceTable(m, 1.0), words);
    Loses(names, words, Only(names, i, PriceTable(m, 1.0)), m, ModelPrice);
  }

  lemma NoChannels(words: iset<string>)
    ensures NothingLost([], words)
  {
    forall local: Table, channels: seq<Channel>, m: string, f: Field | Over(channels, [], words)
      ensures !Reportable(NormalisedView(local, channels), m, f)
    {
      assert |Column(NormalisedView(local, channels), m, f)| == 0;
    }
  }

  /** No difference is ever lost if and only if the channels' names are distinct and the word
      "same" is not among the words their expressions come from (or there is no channel). */
  lemma NothingLostIff(names: seq<string>, words: iset<string>)
    ensures NothingLost(names, words) <==> names == [] || (Distinct(names) && "same" !in words)
  {
    if names == [] {
      NoChannels(words);
    } else if !Distinct(names) {
      OverwrittenLoses(names, words, "m");
    } else if "same" in words {
      SameLoses(names, words, "m");
    } else {
      NothingLostSafe(names, words);
    }
  }
}

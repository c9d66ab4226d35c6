/** Managing a multi-key channel: a key text and three maps keyed by position that must stay
    aligned through disabling, enabling, deleting, filtering, appending and paging. `Row` is
    the persisted channel; every operation reads it, works on copies, and commits. */
module MultiKey {
  import opened Text

  const NEWLINE := '\n'
  const BRACKET := '['
  const ENABLED := 1
  const MANUALLY_DISABLED := 2
  const AUTO_DISABLED := 3

  // ----- The key text -----

  /** The JSON decoder: the raw elements of an array text, and the keys of an array of Vertex AI
      keys; None where decoding fails. Nothing is assumed about either. */
  datatype Json = Json(elements: string -> Option<seq<string>>, vertex: string -> Option<seq<string>>)

  predicate Bracketed(text: string) { var t := TrimSpace(text); t != [] && t[0] == BRACKET }

  function Parsed(json: Json, text: string): Option<seq<string>> {
    if Bracketed(text) then json.elements(TrimSpace(text)) else None
  }

  /** One key per line; newlines at the ends of the text are dropped. */
  function Lines(text: string): seq<string> { Split(Trim(text, c => c == NEWLINE), NEWLINE) }

  /** A text that begins with a bracket is an array if it decodes, and lines if not. */
  function GetKeys(json: Json, text: string): seq<string> {
    if text == [] then []
    else
      var elems := Parsed(json, text);
      if elems.Some? then elems.value else Lines(text)
  }

  /** channel.Update counts on its own, and counts the lines of an empty array. */
  function CountKeys(json: Json, text: string): nat {
    if text == [] then 0
    else
      var elems := Parsed(json, text);
      if elems.Some? && elems.value != [] then |elems.value| else |Lines(text)|
  }

  /** An empty array: no keys, but a count that is not zero. */
  predicate Hollow(json: Json, text: string) { Parsed(json, text) == Some([]) }

  lemma CountFits(json: Json, text: string)
    ensures CountKeys(json, text) >= |GetKeys(json, text)|
    ensures !Hollow(json, text) ==> CountKeys(json, text) == |GetKeys(json, text)|
    ensures Hollow(json, text) ==> GetKeys(json, text) == [] && CountKeys(json, text) > 0
  {
  }

  /** A text that appending takes for an array and cannot decode. */
  predicate Unreadable(json: Json, text: string) { Bracketed(text) && Parsed(json, text).None? }

  /** The keys that appending finds in the old text, which it reads on its own. */
  function OldKeys(json: Json, text: string): seq<string>
    requires text != []
  {
    if Bracketed(text) then
      var elems := json.elements(TrimSpace(text));
      if elems.Some? then elems.value else []
    else Lines(text)
  }

  // ----- Rows and records -----

  datatype Row = Row(text: string, size: nat, status: map<int, int>, time: map<int, int>, reason: map<int, string>)

  /** The keys with the three maps, as operations work on them. */
  datatype Ring = Ring(keys: seq<string>, status: map<int, int>, time: map<int, int>, reason: map<int, string>)

  const EMPTY_RING := Ring([], map[], map[], map[])

  function Loaded(json: Json, row: Row): Ring { Ring(GetKeys(json, row.text), row.status, row.time, row.reason) }

  /** One key with everything the three maps say about it. */
  datatype Record = Record(key: string, status: int, time: Option<int>, reason: Option<string>)

  function Lookup<T>(m: map<int, T>, i: int): Option<T> { if i in m then Some(m[i]) else None }

  function StatusAt(status: map<int, int>, i: int): int { if i in status then status[i] else ENABLED }

  function RecordAt(ring: Ring, i: nat): Record
    requires i < |ring.keys|
  {
    Record(ring.keys[i], StatusAt(ring.status, i), Lookup(ring.time, i), Lookup(ring.reason, i))
  }

  function Records(ring: Ring): (rs: seq<Record>)
    ensures |rs| == |ring.keys|
  {
    seq(|ring.keys|, i requires 0 <= i < |ring.keys| => RecordAt(ring, i))
  }

  function KeysOf(rs: seq<Record>): seq<string> { seq(|rs|, i requires 0 <= i < |rs| => rs[i].key) }

  lemma KeysOfRecords(ring: Ring)
    ensures KeysOf(Records(ring)) == ring.keys
  {
  }

  predicate Below<T>(m: map<int, T>, n: int) { forall i | i in m :: 0 <= i < n }

  /** The maps never speak of a position outside the key list. */
  predicate Aligned(ring: Ring) {
    var n := |ring.keys|; Below(ring.status, n) && Below(ring.time, n) && Below(ring.reason, n)
  }

  /** The recorded size is the count of keys; every commit sees to that. */
  predicate Valid(json: Json, row: Row) { row.size == CountKeys(json, row.text) }

  /** The row is aligned and reads as these records. */
  predicate Exactly(json: Json, row: Row, rs: seq<Record>) {
    Aligned(Loaded(json, row)) && Records(Loaded(json, row)) == rs
  }

  /** channel.Update: an empty key text is not written, the size is recounted from the text that
      is stored, and statuses beyond the size are dropped. */
  function Committed(json: Json, stored: Row, next: Row): (row: Row)
    ensures Valid(json, row)
  {
    var text := if next.text == [] then stored.text else next.text;
    var n := CountKeys(json, text);
    Row(text, n, map i | i in next.status && i < n :: next.status[i], next.time, next.reason)
  }

  /** A rewritten key list goes into the row joined by newlines. */
  function Written(ring: Ring): Row {
    Row(Join(ring.keys, NEWLINE), |ring.keys|, ring.status, ring.time, ring.reason)
  }

  /** What a commit keeps: the text unless it is empty, every status within the recounted size
      and no other, and the other two maps. */
  lemma CommittedIs(json: Json, stored: Row, next: Row, i: int)
    ensures var row := Committed(json, stored, next);
      && row.text == (if |next.text| == 0 then stored.text else next.text)
      && (i in row.status <==> i in next.status && i < row.size)
      && (i in row.status ==> row.status[i] == next.status[i])
      && row.time == next.time && row.reason == next.reason
  {
  }

  // ----- What survives being written -----

  /** The first and the last key are not empty. */
  predicate Whole(keys: seq<string>) { keys != [] && keys[0] != [] && keys[|keys| - 1] != [] }

  predicate NoNewlines(keys: seq<string>) { forall k | k in keys :: NEWLINE !in k }

  /** Keys that can be written one per line: the text decodes to no other array, the ends are
      not empty, and no key holds a newline. */
  predicate Writable(json: Json, keys: seq<string>) {
    && keys != []
    && var elems := Parsed(json, Join(keys, NEWLINE));
       if elems.Some? then elems.value == keys else Whole(keys) && NoNewlines(keys)
  }

  /** What lines can be: one empty key, or keys with non-empty ends. */
  lemma LinesShape(text: string)
    ensures NoNewlines(Lines(text)) && (Lines(text) == [[]] || Whole(Lines(text)))
  {
    var t := Trim(text, c => c == NEWLINE);
    TrimBare(text, c => c == NEWLINE);
    if t != [] { SplitLast(t, NEWLINE); }
  }

  lemma JoinEmpty(keys: seq<string>)
    ensures Join(keys, NEWLINE) == [] <==> keys == [] || keys == [[]]
  {
  }

  lemma LinesOfJoin(keys: seq<string>)
    requires Whole(keys) && NoNewlines(keys)
    ensures Lines(Join(keys, NEWLINE)) == keys
  {
    JoinBare(keys, NEWLINE);
    TrimBare(Join(keys, NEWLINE), c => c == NEWLINE);
    SplitJoin(keys, NEWLINE);
  }

  /** A list of keys survives being joined and read back if and only if it is writable. */
  lemma ReadBackIff(json: Json, keys: seq<string>)
    ensures GetKeys(json, Join(keys, NEWLINE)) == keys <==> keys == [] || Writable(json, keys)
  {
    JoinEmpty(keys);
    LinesShape(Join(keys, NEWLINE));
    if Whole(keys) && NoNewlines(keys) { LinesOfJoin(keys); }
  }

  /** Writing a changed key list: if it is writable the row reads as what was written, and
      otherwise it has other keys, at positions the maps do not know of. */
  lemma WrittenIff(json: Json, stored: Row, ring: Ring)
    requires Aligned(ring) && ring.keys != GetKeys(json, stored.text)
    ensures var row := Committed(json, stored, Written(ring));
      && (Writable(json, ring.keys) ==> Loaded(json, row) == ring)
      && (!Writable(json, ring.keys) ==> GetKeys(json, row.text) != ring.keys)
  {
    var row := Committed(json, stored, Written(ring));
    JoinEmpty(ring.keys);
    ReadBackIff(json, ring.keys);
    CountFits(json, row.text);
    if Writable(json, ring.keys) { assert row.status == ring.status; }
  }

  /** Committing maps changed in place, under the old key text. */
  lemma SameKeys(json: Json, stored: Row, next: Row)
    requires next.text == stored.text
    ensures var row := Committed(json, stored, next);
      && row.text == stored.text
      && Records(Loaded(json, row)) == Records(Loaded(json, next))
      && (Aligned(Loaded(json, next)) ==> Aligned(Loaded(json, row)))
  {
    var row := Committed(json, stored, next);
    CountFits(json, row.text);
    forall i | 0 <= i < |GetKeys(json, row.text)|
      ensures RecordAt(Loaded(json, row), i) == RecordAt(Loaded(json, next), i) { }
  }

  /** A status at a position of an empty array is kept, and belongs to no key. */
  lemma HollowStatus(json: Json, stored: Row, next: Row, i: nat)
    requires next.text == stored.text && Hollow(json, stored.text)
    requires i < CountKeys(json, stored.text) && i in next.status
    ensures !Aligned(Loaded(json, Committed(json, stored, next)))
  {
    CountFits(json, stored.text);
    assert i in Committed(json, stored, next).status;
  }

  // ----- What each action is to do -----

  datatype Action =
    | DisableKey(index: Option<int>) | EnableKey(index: Option<int>) | EnableAll | DisableAll
    | DeleteKey(index: Option<int>) | DeleteDisabled | AppendKeys(input: string, vertex: bool)

  datatype Reply = Rejected | NotSaved | Done(count: nat)

  /** A row as its key text and its records. */
  datatype View = View(text: string, rs: seq<Record>)

  function ViewOf(json: Json, row: Row): View { View(row.text, Records(Loaded(json, row))) }

  predicate Reads(json: Json, row: Row, v: View) { row.text == v.text && Exactly(json, row, v.rs) }

  function Reset(r: Record): Record { Record(r.key, ENABLED, None, None) }

  function ResetAll(rs: seq<Record>): seq<Record> {
    seq(|rs|, i requires 0 <= i < |rs| => Reset(rs[i]))
  }

  function Disable(r: Record): Record { if r.status == ENABLED then r.(status := MANUALLY_DISABLED) else r }

  function DisableEach(rs: seq<Record>): seq<Record> {
    seq(|rs|, i requires 0 <= i < |rs| => Disable(rs[i]))
  }

  function CountStatus(rs: seq<Record>, status: int): nat {
    if rs == [] then 0 else CountStatus(rs[..|rs| - 1], status) + (if rs[|rs| - 1].status == status then 1 else 0)
  }

  function Deleted(rs: seq<Record>, i: nat): seq<Record>
    requires i < |rs|
  {
    rs[..i] + rs[i + 1..]
  }

  /** A kept record of an enabled key loses whatever disable information it still carried. */
  function Settle(r: Record): Record { if r.status == ENABLED then Reset(r) else r }

  function Purge(rs: seq<Record>): seq<Record> {
    if rs == [] then []
    else
      var kept := Purge(rs[..|rs| - 1]);
      var r := rs[|rs| - 1];
      if r.status == AUTO_DISABLED then kept else kept + [Settle(r)]
  }

  function Trimmed(keys: seq<string>): set<string> { set i | 0 <= i < |keys| :: TrimSpace(keys[i]) }

  /** The appended keys: trimmed, non-empty, new to the list and to each other. */
  function Novel(known: set<string>, offered: seq<string>): seq<string> {
    if offered == [] then []
    else
      var before := Novel(known, offered[..|offered| - 1]);
      var key := TrimSpace(offered[|offered| - 1]);
      if key == [] || key in known || key in before then before else before + [key]
  }

  function NewRecords(keys: seq<string>): seq<Record> {
    seq(|keys|, i requires 0 <= i < |keys| => Record(keys[i], ENABLED, None, None))
  }

  /** The keys a request offers for appending: its lines or, for Vertex AI keys, the elements of
      an array or the whole text. None is an array that does not decode. */
  function Offered(json: Json, input: string, vertex: bool): Option<seq<string>> {
    if !vertex then Some(Split(input, NEWLINE))
    else if Bracketed(input) then json.vertex(input)
    else Some([input])
  }

  /** The list that appending writes. */
  function AppendedTo(keys: seq<string>, offered: seq<string>): seq<string> {
    keys + Novel(Trimmed(keys), offered)
  }

  /** The text after writing these keys; an empty one is not written. */
  function TextAfter(text: string, keys: seq<string>): string {
    var text' := Join(keys, NEWLINE);
    if text' == [] then text else text'
  }

  predicate InRange(rs: seq<Record>, index: Option<int>) { index.Some? && 0 <= index.value < |rs| }

  function Rewrite(v: View, rs: seq<Record>): View { View(TextAfter(v.text, KeysOf(rs)), rs) }

  /** What the action means for the records. */
  function Effect(json: Json, v: View, action: Action): View {
    var rs := v.rs;
    match action
    case DisableKey(index) =>
      if InRange(rs, index) then v.(rs := rs[index.value := rs[index.value].(status := MANUALLY_DISABLED)]) else v
    case EnableKey(index) => if InRange(rs, index) then v.(rs := rs[index.value := Reset(rs[index.value])]) else v
    case EnableAll => v.(rs := ResetAll(rs))
    case DisableAll => v.(rs := DisableEach(rs))
    case DeleteKey(index) => if InRange(rs, index) && |rs| > 1 then Rewrite(v, Deleted(rs, index.value)) else v
    case DeleteDisabled =>
      if CountStatus(rs, AUTO_DISABLED) == 0 then v
      else if Purge(rs) == [] then v.(rs := ResetAll(rs)) else Rewrite(v, Purge(rs))
    case AppendKeys(input, vertex) =>
      if v.text == [] then View(input, NewRecords(GetKeys(json, input)))
      else
        var offered := Offered(json, input, vertex);
        if offered.None? then v
        else View(TextAfter(v.text, AppendedTo(OldKeys(json, v.text), offered.value)),
                  rs + NewRecords(Novel(Trimmed(KeysOf(rs)), offered.value)))
  }

  /** When the row does not come to that. Disabling a position of an empty array; writing keys
      that are not writable; and appending to a text that it cannot read, unless nothing is
      offered or the new keys alone read as the old ones followed by the new. */
  predicate Torn(json: Json, v: View, action: Action) {
    var rs := v.rs;
    match action
    case DisableKey(index) =>
      Hollow(json, v.text) && index.Some? && 0 <= index.value < CountKeys(json, v.text)
    case DisableAll => Hollow(json, v.text)
    case DeleteKey(index) =>
      InRange(rs, index) && |rs| > 1 && !Writable(json, KeysOf(Deleted(rs, index.value)))
    case DeleteDisabled =>
      CountStatus(rs, AUTO_DISABLED) > 0 && Purge(rs) != [] && !Writable(json, KeysOf(Purge(rs)))
    case AppendKeys(input, vertex) =>
      var offered := Offered(json, input, vertex);
      v.text != [] && offered.Some? &&
      var all := AppendedTo(KeysOf(rs), offered.value);
      if Unreadable(json, v.text) then
        var alone := Novel({}, offered.value);
        alone != [] && GetKeys(json, Join(alone, NEWLINE)) != all
      else Join(all, NEWLINE) != [] && !Writable(json, all)
    case _ => false
  }

  /** The new row is the old one with the keys and maps of these records written to it. */
  ghost predicate Rewritten(json: Json, before: Row, after: Row, rs: seq<Record>) {
    exists ring :: Aligned(ring) && Records(ring) == rs && after == Committed(json, before, Written(ring))
  }

  /** What an action does to a channel that reads as v: its effect, exactly unless torn. */
  ghost predicate Performed(json: Json, row: Row, v: View, action: Action) {
    Reads(json, row, Effect(json, v, action)) <==> !Torn(json, v, action)
  }

  datatype Request = Request(action: Action, saved: bool)

  ghost function Effects(json: Json, v: View, requests: seq<Request>): View {
    if requests == [] then v
    else
      var before, last := Effects(json, v, requests[..|requests| - 1]), requests[|requests| - 1];
      if last.saved then Effect(json, before, last.action) else before
  }

  ghost predicate NeverTorn(json: Json, v: View, requests: seq<Request>) {
    requests == [] ||
    (var before, last := requests[..|requests| - 1], requests[|requests| - 1];
     NeverTorn(json, v, before) && (last.saved ==> !Torn(json, Effects(json, v, before), last.action)))
  }

  /** What the in-place actions do to the j-th record, and deleting to the others. */
  lemma EffectIs(json: Json, v: View, index: int, j: nat)
    requires j < |v.rs|
    ensures var r := Effect(json, v, DisableKey(Some(index))).rs;
      |r| == |v.rs| && r[j] == if j == index then Record(v.rs[j].key, 2, v.rs[j].time, v.rs[j].reason) else v.rs[j]
    ensures var r := Effect(json, v, EnableKey(Some(index))).rs;
      |r| == |v.rs| && r[j] == if j == index then Record(v.rs[j].key, 1, None, None) else v.rs[j]
    ensures var r := Effect(json, v, EnableAll).rs; |r| == |v.rs| && r[j] == Record(v.rs[j].key, 1, None, None)
    ensures var r := Effect(json, v, DisableAll).rs;
      |r| == |v.rs| && r[j] == Record(v.rs[j].key, if v.rs[j].status == 1 then 2 else v.rs[j].status,
                                      v.rs[j].time, v.rs[j].reason)
    ensures var r := Effect(json, v, DeleteKey(Some(index))).rs;
      0 <= index < |v.rs| && |v.rs| > 1 ==>
        && |r| == |v.rs| - 1
        && (j < index ==> r[j] == v.rs[j]) && (j > index ==> r[j - 1] == v.rs[j])
  {
  }

  /** The appended keys are the offered ones, trimmed, that are neither empty nor known, once
      each, in the order in which they are first offered. */
  lemma {:induction false} NovelIs(known: set<string>, offered: seq<string>)
    ensures FirstOccurrences(offered, known, Novel(known, offered))
    decreases |offered|
  {
    if offered != [] {
      var before, n := offered[..|offered| - 1], offered[|offered| - 1];
      NovelIs(known, before);
      assert offered == before + [n];
      FirstOccurrencesPush(before, known, Novel(known, before), n);
    }
  }

  /** What appending is to add to a readable, non-empty text: the lines of the request, or its
      Vertex AI keys, that are not among the old keys, both trimmed. */
  lemma AppendAdds(json: Json, v: View, input: string, vertex: bool)
    requires v.text != []
    ensures !vertex ==> Offered(json, input, vertex).Some?
    ensures vertex && !Bracketed(input) ==> Offered(json, input, vertex) == Some([input])
    ensures vertex && Bracketed(input) ==> Offered(json, input, vertex) == json.vertex(input)
    ensures var v' := Effect(json, v, AppendKeys(input, vertex));
      var offered := Offered(json, input, vertex);
      if offered.None? then v' == v
      else
        && (!vertex ==> Join(offered.value, '\n') == input && forall l | l in offered.value :: '\n' !in l)
        && |v'.rs| >= |v.rs| && v'.rs[..|v.rs|] == v.rs
        && (forall i | |v.rs| <= i < |v'.rs| :: v'.rs[i] == Record(v'.rs[i].key, 1, None, None))
        && FirstOccurrences(offered.value, set i | 0 <= i < |v.rs| :: TrimSpace(v.rs[i].key),
                            KeysOf(v'.rs[|v.rs|..]))
  {
    JoinSplit(input, NEWLINE);
    var offered := Offered(json, input, vertex);
    if offered.Some? {
      var keys := KeysOf(v.rs);
      var added := Novel(Trimmed(keys), offered.value);
      NovelIs(Trimmed(keys), offered.value);
      assert Trimmed(keys) == set i | 0 <= i < |v.rs| :: TrimSpace(v.rs[i].key) by { TrimmedIs(v.rs); }
      assert (v.rs + NewRecords(added))[|v.rs|..] == NewRecords(added);
      assert KeysOf(NewRecords(added)) == added;
    }
  }

  lemma TrimmedIs(rs: seq<Record>)
    ensures Trimmed(KeysOf(rs)) == set i | 0 <= i < |rs| :: TrimSpace(rs[i].key)
  {
    var keys := KeysOf(rs);
    forall k ensures k in Trimmed(keys) <==> k in (set i | 0 <= i < |rs| :: TrimSpace(rs[i].key)) {
      if k in Trimmed(keys) {
        var i :| 0 <= i < |keys| && TrimSpace(keys[i]) == k;
        assert TrimSpace(rs[i].key) == k;
      }
      if i :| 0 <= i < |rs| && TrimSpace(rs[i].key) == k {
        assert TrimSpace(keys[i]) == k;
      }
    }
  }

  /** A count is the number of positions with that status. */
  lemma {:induction false} CountStatusIs(rs: seq<Record>, status: int)
    ensures CountStatus(rs, status) == |set i | 0 <= i < |rs| && rs[i].status == status|
    decreases |rs|
  {
    if rs != [] {
      var n := |rs| - 1;
      CountStatusIs(rs[..n], status);
      var before := set i | 0 <= i < n && rs[..n][i].status == status;
      var all := set i | 0 <= i < |rs| && rs[i].status == status;
      assert all == before + (if rs[n].status == status then {n} else {});
    }
  }

  // ----- Small facts about records -----

  lemma RecordsSet(ring: Ring, ring': Ring, i: nat)
    requires i < |ring.keys| && ring'.keys == ring.keys
    requires forall j | 0 <= j < |ring.keys| && j != i :: RecordAt(ring', j) == RecordAt(ring, j)
    ensures Records(ring') == Records(ring)[i := RecordAt(ring', i)]
  {
  }

  /** Adding a key at the end, with maps that differ from the old ones only at its position. */
  lemma RecordsPush(ring: Ring, ring': Ring, r: Record)
    requires ring'.keys == ring.keys + [r.key] && RecordAt(ring', |ring.keys|) == r
    requires forall j | 0 <= j < |ring.keys| :: RecordAt(ring', j) == RecordAt(ring, j)
    ensures Records(ring') == Records(ring) + [r]
  {
  }

  lemma {:induction false} CountStatusZero(rs: seq<Record>, status: int)
    ensures CountStatus(rs, status) == 0 <==> forall i | 0 <= i < |rs| :: rs[i].status != status
    decreases |rs|
  {
    if rs != [] {
      CountStatusZero(rs[..|rs| - 1], status);
    }
  }

  /** The first i records without the k-th. */
  function Kept(rs: seq<Record>, k: nat, i: nat): seq<Record>
    requires k < |rs| && i <= |rs|
  {
    if i <= k then rs[..i] else rs[..k] + rs[k + 1..i]
  }

  lemma DeletedStep(rs: seq<Record>, k: nat, i: nat)
    requires k < |rs| && i < |rs|
    ensures Kept(rs, k, i + 1) == if i == k then Kept(rs, k, i) else Kept(rs, k, i) + [rs[i]]
  {
  }

  lemma CountStep(rs: seq<Record>, i: nat, status: int)
    requires i < |rs|
    ensures CountStatus(rs[..i + 1], status) == CountStatus(rs[..i], status) + if rs[i].status == status then 1 else 0
  {
    assert rs[..i + 1][..i] == rs[..i];
  }

  lemma EnabledRecords(ring: Ring, i: nat)
    ensures var ring' := Ring(ring.keys, ring.status - {i}, ring.time - {i}, ring.reason - {i});
      && (Aligned(ring) ==> Aligned(ring'))
      && Records(ring') == if i < |ring.keys| then Records(ring)[i := Reset(Records(ring)[i])] else Records(ring)
  {
    var ring' := Ring(ring.keys, ring.status - {i}, ring.time - {i}, ring.reason - {i});
    if i < |ring.keys| { RecordsSet(ring, ring', i); }
  }

  function Off(status: int): int { if status == ENABLED then MANUALLY_DISABLED else status }

  /** How many of the first n positions are enabled. */
  function CountEnabled(status: map<int, int>, n: nat): nat {
    if n == 0 then 0 else CountEnabled(status, n - 1) + (if StatusAt(status, n - 1) == ENABLED then 1 else 0)
  }

  lemma {:induction false} EnabledAre(ring: Ring, n: nat)
    requires n <= |ring.keys|
    ensures CountEnabled(ring.status, n) == CountStatus(Records(ring)[..n], ENABLED)
  {
    if n > 0 {
      EnabledAre(ring, n - 1);
      CountStep(Records(ring), n - 1, ENABLED);
    }
  }

  /** No position outside the keys is spoken of, so all are enabled. */
  lemma {:induction false} EnabledBeyond(status: map<int, int>, n: nat)
    requires Below(status, 0)
    ensures CountEnabled(status, n) == n
  {
    if n > 0 { EnabledBeyond(status, n - 1); }
  }

  lemma {:induction false} NoneEnabled(status: map<int, int>, n: nat)
    requires CountEnabled(status, n) == 0
    ensures forall j | 0 <= j < n :: StatusAt(status, j) != ENABLED
  {
    if n > 0 { NoneEnabled(status, n - 1); }
  }

  /** The statuses when the first i of n positions have been visited. */
  ghost predicate DisabledUpTo(was: map<int, int>, status: map<int, int>, i: nat, n: nat) {
    forall j | 0 <= j < n :: StatusAt(status, j) == if j < i then Off(StatusAt(was, j)) else StatusAt(was, j)
  }

  lemma DisableStep(was: map<int, int>, status: map<int, int>, i: nat, n: nat)
    requires i < n && DisabledUpTo(was, status, i, n)
    ensures StatusAt(status, i) == StatusAt(was, i)
    ensures DisabledUpTo(was, if StatusAt(was, i) == ENABLED then status[i := MANUALLY_DISABLED] else status, i + 1, n)
  {
  }

  /** The status map with every enabled position manually disabled, and how many those were. */
  method DisabledCopy(row: Row) returns (status: map<int, int>, count: nat)
    ensures DisabledUpTo(row.status, status, row.size, row.size) && count == CountEnabled(row.status, row.size)
    ensures Below(row.status, row.size) ==> Below(status, row.size)
  {
    status := row.status;
    count := 0;
    for i := 0 to row.size
      invariant Below(row.status, row.size) ==> Below(status, row.size)
      invariant DisabledUpTo(row.status, status, i, row.size) && count == CountEnabled(row.status, i)
    {
      DisableStep(row.status, status, i, row.size);
      if StatusAt(status, i) == ENABLED {
        status := status[i := MANUALLY_DISABLED];
        count := count + 1;
      }
    }
  }

  /** Appending a settled record of ring's i-th key to an aligned copy under construction. */
  function Push(ring: Ring, next: Ring, i: nat): Ring
    requires i < |ring.keys|
  {
    var n, status := |next.keys|, StatusAt(ring.status, i);
    Ring(next.keys + [ring.keys[i]],
         if status != ENABLED then next.status[n := status] else next.status,
         if status != ENABLED && i in ring.time then next.time[n := ring.time[i]] else next.time,
         if status != ENABLED && i in ring.reason then next.reason[n := ring.reason[i]] else next.reason)
  }

  lemma PushRecords(ring: Ring, next: Ring, i: nat)
    requires i < |ring.keys| && Aligned(next)
    ensures Aligned(Push(ring, next, i))
    ensures Records(Push(ring, next, i)) == Records(next) + [Settle(RecordAt(ring, i))]
  {
    RecordsPush(next, Push(ring, next, i), Settle(RecordAt(ring, i)));
  }

  /** Appending ring's i-th key with all its map entries to an aligned copy. */
  function Copy(ring: Ring, next: Ring, i: nat): Ring
    requires i < |ring.keys|
  {
    var n := |next.keys|;
    Ring(next.keys + [ring.keys[i]],
         if i in ring.status && ring.status[i] != ENABLED then next.status[n := ring.status[i]] else next.status,
         if i in ring.time then next.time[n := ring.time[i]] else next.time,
         if i in ring.reason then next.reason[n := ring.reason[i]] else next.reason)
  }

  lemma CopyRecords(ring: Ring, next: Ring, i: nat)
    requires i < |ring.keys| && Aligned(next)
    ensures Aligned(Copy(ring, next, i))
    ensures Records(Copy(ring, next, i)) == Records(next) + [RecordAt(ring, i)]
  {
    RecordsPush(next, Copy(ring, next, i), RecordAt(ring, i));
  }

  /** Every key but the k-th, its map entries moved to its new position. */
  method CopyWithout(ring: Ring, k: nat) returns (next: Ring)
    requires k < |ring.keys|
    ensures Aligned(next) && Records(next) == Deleted(Records(ring), k)
  {
    next := EMPTY_RING;
    ghost var rs := Records(ring);
    for i := 0 to |ring.keys|
      invariant Aligned(next) && Records(next) == Kept(rs, k, i)
    {
      DeletedStep(rs, k, i);
      if i == k { continue; }
      CopyRecords(ring, next, i);
      next := Copy(ring, next, i);
    }
    assert Kept(rs, k, |rs|) == Deleted(rs, k);
  }

  /** The offered keys that are new to the channel, trimmed. */
  method NovelKeys(keys: seq<string>, offered: seq<string>) returns (added: seq<string>)
    ensures added == Novel(Trimmed(keys), offered)
  {
    ghost var known := Trimmed(keys);
    var seen: set<string> := {};
    for i := 0 to |keys|
      invariant seen == set j | 0 <= j < i && TrimSpace(keys[j]) != [] :: TrimSpace(keys[j])
    {
      var normalized := TrimSpace(keys[i]);
      if normalized == [] { continue; }
      seen := seen + {normalized};
    }
    added := [];
    assert forall k | k != [] :: k in seen <==> k in known;
    ghost var start := seen;
    for i := 0 to |offered|
      invariant added == Novel(known, offered[..i])
      invariant forall k :: k in seen <==> k in start || k in added
    {
      assert offered[..i + 1][..i] == offered[..i];
      var normalized := TrimSpace(offered[i]);
      if normalized == [] || normalized in seen { continue; }
      seen := seen + {normalized};
      added := added + [normalized];
    }
    assert offered[..|offered|] == offered;
  }

  lemma {:induction false} NovelNotEmpty(known: set<string>, offered: seq<string>)
    ensures forall k | k in Novel(known, offered) :: k != []
    ensures Novel({}, offered) == [] ==> Novel(known, offered) == []
    decreases |offered|
  {
    if offered != [] { NovelNotEmpty(known, offered[..|offered| - 1]); }
  }

  lemma AppendedRecords(ring: Ring, added: seq<string>)
    requires Aligned(ring)
    ensures var next := ring.(keys := ring.keys + added);
      Aligned(next) && Records(next) == Records(ring) + NewRecords(added)
  {
  }

  /** The keys that are not automatically disabled, their map entries moved to their new
      positions, and how many keys were left out. */
  method PurgedCopy(ring: Ring) returns (next: Ring, deleted: nat)
    ensures Aligned(next) && Records(next) == Purge(Records(ring))
    ensures deleted == CountStatus(Records(ring), AUTO_DISABLED)
  {
    next := EMPTY_RING;
    deleted := 0;
    ghost var rs := Records(ring);
    for i := 0 to |ring.keys|
      invariant Aligned(next) && Records(next) == Purge(rs[..i])
      invariant deleted == CountStatus(rs[..i], AUTO_DISABLED)
    {
      assert rs[..i + 1][..i] == rs[..i];
      if StatusAt(ring.status, i) == AUTO_DISABLED {
        deleted := deleted + 1;
      } else {
        PushRecords(ring, next, i);
        next := Push(ring, next, i);
      }
    }
    assert rs[..|ring.keys|] == rs;
  }

  lemma {:induction false} PurgeCounts(rs: seq<Record>)
    ensures |Purge(rs)| == |rs| - CountStatus(rs, AUTO_DISABLED)
    decreases |rs|
  {
    if rs != [] { PurgeCounts(rs[..|rs| - 1]); }
  }

  // ----- Filtering and what survives it -----

  ghost function NotAuto(): Record -> bool { (r: Record) => r.status != 3 }

  lemma {:induction false} PurgeKeys(rs: seq<Record>)
    ensures |Purge(rs)| == |Filter(rs, NotAuto())|
    ensures forall i | 0 <= i < |Purge(rs)| :: Purge(rs)[i] == Settle(Filter(rs, NotAuto())[i])
    decreases |rs|
  {
    if rs != [] {
      PurgeKeys(rs[..|rs| - 1]);
    }
  }

  /** What purging leaves, record by record: the others in order, enabled ones without any
      disable information. */
  lemma PurgedIs(rs: seq<Record>, i: nat)
    requires i < |Purge(rs)|
    ensures |Purge(rs)| == |Filter(rs, NotAuto())|
    ensures var r := Filter(rs, NotAuto())[i];
      Purge(rs)[i] == if r.status == 1 then Record(r.key, 1, None, None) else r
  {
    PurgeKeys(rs);
  }

  /** An enabled key that still carries a disable time or reason. */
  predicate Leftover(r: Record) { r.status == ENABLED && (r.time.Some? || r.reason.Some?) }

  /** When deleting the automatically disabled keys is just that: there are none, or the others
      are writable and no enabled one carries leftover information. */
  ghost predicate PurgeIsFilter(json: Json, rs: seq<Record>) {
    || (forall r | r in rs :: r.status != 3)
    || (Writable(json, KeysOf(Filter(rs, NotAuto()))) && forall r | r in rs :: !Leftover(r))
  }

  /** Purging gives the filtered keys, and the filtered records if nothing is left over. */
  lemma PurgeFilters(rs: seq<Record>)
    ensures KeysOf(Purge(rs)) == KeysOf(Filter(rs, NotAuto()))
    ensures Purge(rs) == Filter(rs, NotAuto()) <==> forall r | r in rs :: !Leftover(r)
    ensures CountStatus(rs, AUTO_DISABLED) == 0 <==> forall r | r in rs :: r.status != AUTO_DISABLED
    ensures CountStatus(rs, AUTO_DISABLED) == 0 ==> Filter(rs, NotAuto()) == rs
  {
    PurgeKeys(rs);
    CountStatusZero(rs, AUTO_DISABLED);
    var kept := Filter(rs, NotAuto());
    forall r | r in rs && CountStatus(rs, AUTO_DISABLED) == 0 ensures r.status != AUTO_DISABLED { }
    if CountStatus(rs, AUTO_DISABLED) == 0 { FilterAll(rs, NotAuto()); }
    if forall r | r in rs :: !Leftover(r) {
      forall j | 0 <= j < |kept| ensures Purge(rs)[j] == kept[j] { assert kept[j] in kept; }
    } else {
      var r :| r in rs && Leftover(r);
      assert r in kept;
      var j :| 0 <= j < |kept| && kept[j] == r;
      assert Purge(rs)[j] != kept[j];
    }
  }

  // ----- What the writing actions leave -----

  /** Deleting a key leaves exactly the other records if and only if their keys are writable. */
  lemma DeleteKeyExactIff(json: Json, row: Row, k: nat, next: Ring)
    requires k < |GetKeys(json, row.text)| && |GetKeys(json, row.text)| > 1
    requires Aligned(next) && Records(next) == Deleted(Records(Loaded(json, row)), k)
    ensures Performed(json, Committed(json, row, Written(next)), ViewOf(json, row), Action.DeleteKey(Some(k)))
  {
    KeysOfRecords(next);
    KeysOfRecords(Loaded(json, Committed(json, row, Written(next))));
    WrittenIff(json, row, next);
  }

  /** An empty list of keys is not written, but its empty maps are. */
  lemma WrittenNothing(json: Json, row: Row, next: Ring)
    requires Aligned(next) && next.keys == []
    ensures Reads(json, Committed(json, row, Written(next)), View(row.text, ResetAll(Records(Loaded(json, row)))))
  {
    var rs, row' := Records(Loaded(json, row)), Committed(json, row, Written(next));
    forall i | 0 <= i < |rs| ensures RecordAt(Loaded(json, row'), i) == Reset(rs[i]) { }
    assert Records(Loaded(json, row')) == ResetAll(rs);
  }

  lemma PurgedWritten(json: Json, row: Row, next: Ring)
    requires Aligned(next) && Records(next) == Purge(Records(Loaded(json, row)))
    requires CountStatus(Records(Loaded(json, row)), AUTO_DISABLED) > 0
    ensures var row' := Committed(json, row, Written(next));
      && next.keys == KeysOf(Purge(Records(Loaded(json, row))))
      && (Writable(json, next.keys) ==> Loaded(json, row') == next)
      && (!Writable(json, next.keys) ==> KeysOf(Records(Loaded(json, row'))) != next.keys)
  {
    KeysOfRecords(next);
    KeysOfRecords(Loaded(json, Committed(json, row, Written(next))));
    PurgeCounts(Records(Loaded(json, row)));
    WrittenIff(json, row, next);
  }

  lemma PurgePerformed(json: Json, row: Row, next: Ring)
    requires Aligned(next) && Records(next) == Purge(Records(Loaded(json, row)))
    requires CountStatus(Records(Loaded(json, row)), AUTO_DISABLED) > 0
    ensures Performed(json, Committed(json, row, Written(next)), ViewOf(json, row), DeleteDisabled)
  {
    PurgedWritten(json, row, next);
    if next.keys == [] { WrittenNothing(json, row, next); }
  }

  /** Deleting the automatically disabled keys leaves exactly the other records, in order, if
      and only if their keys are writable (so there are some) and no enabled one carries
      leftover disable information. */
  lemma DeleteDisabledIsFilterIff(json: Json, row: Row, next: Ring)
    requires Aligned(next) && Records(next) == Purge(Records(Loaded(json, row)))
    requires CountStatus(Records(Loaded(json, row)), AUTO_DISABLED) > 0
    ensures var rs, row' := Records(Loaded(json, row)), Committed(json, row, Written(next));
      && Performed(json, row', ViewOf(json, row), DeleteDisabled)
      && (Exactly(json, row', Filter(rs, NotAuto())) <==> PurgeIsFilter(json, rs))
  {
    PurgePerformed(json, row, next);
    PurgedWritten(json, row, next);
    PurgeFilters(Records(Loaded(json, row)));
  }

  lemma PurgedNothing(json: Json, row: Row)
    requires Aligned(Loaded(json, row)) && CountStatus(Records(Loaded(json, row)), AUTO_DISABLED) == 0
    ensures Performed(json, row, ViewOf(json, row), DeleteDisabled)
  {
    var v := ViewOf(json, row);
    assert Effect(json, v, DeleteDisabled) == v && !Torn(json, v, DeleteDisabled);
  }

  lemma FilteredNothing(json: Json, rs: seq<Record>)
    requires CountStatus(rs, AUTO_DISABLED) == 0
    ensures Filter(rs, NotAuto()) == rs && PurgeIsFilter(json, rs)
  {
    PurgeFilters(rs);
  }

  /** When every key is automatically disabled the action deletes none and enables all. */
  lemma DeletingEveryKeyEnablesAll(json: Json, row: Row, next: Ring)
    requires forall r | r in Records(Loaded(json, row)) :: r.status == AUTO_DISABLED
    requires Aligned(next) && Records(next) == Purge(Records(Loaded(json, row)))
    ensures Reads(json, Committed(json, row, Written(next)), View(row.text, ResetAll(Records(Loaded(json, row)))))
  {
    NothingKept(Records(Loaded(json, row)));
    PurgeKeys(Records(Loaded(json, row)));
    WrittenNothing(json, row, next);
  }

  lemma {:induction false} NothingKept(rs: seq<Record>)
    requires forall r | r in rs :: r.status == AUTO_DISABLED
    ensures Filter(rs, NotAuto()) == []
    decreases |rs|
  {
    if rs != [] {
      assert rs[|rs| - 1] in rs;
      NothingKept(rs[..|rs| - 1]);
    }
  }

  lemma AppendedToNone(json: Json, row: Row, input: string, vertex: bool)
    requires row.text == [] && Aligned(Loaded(json, row))
    ensures Performed(json, Committed(json, row, row.(text := input)), ViewOf(json, row), AppendKeys(input, vertex))
  {
    var row', keys := Committed(json, row, row.(text := input)), GetKeys(json, input);
    forall i | 0 <= i < |keys| ensures RecordAt(Loaded(json, row'), i) == Record(keys[i], ENABLED, None, None) { }
    assert Records(Loaded(json, row')) == NewRecords(keys);
  }

  /** Under a new key text the old maps fit exactly when the text reads as the old keys followed
      by the new. */
  lemma GrownIff(json: Json, row: Row, text: string, added: seq<string>)
    requires text != [] && Aligned(Loaded(json, row))
    ensures var row' := Committed(json, row, row.(text := text));
      Exactly(json, row', Records(Loaded(json, row)) + NewRecords(added)) <==>
      GetKeys(json, text) == GetKeys(json, row.text) + added
  {
    var ring, row' := Loaded(json, row), Committed(json, row, row.(text := text));
    AppendedRecords(ring, added);
    KeysOfRecords(Loaded(json, row'));
    KeysOfRecords(ring.(keys := ring.keys + added));
    if GetKeys(json, text) == ring.keys + added {
      CountFits(json, text);
      assert row'.status == row.status;
      assert Loaded(json, row') == ring.(keys := ring.keys + added);
    }
  }

  /** With nothing to write the row stays as it is. */
  lemma GrownByNothing(json: Json, row: Row)
    requires Aligned(Loaded(json, row))
    ensures Exactly(json, Committed(json, row, row.(text := [])), Records(Loaded(json, row)) + NewRecords([]))
  {
    var row' := Committed(json, row, row.(text := []));
    CountFits(json, row.text);
    assert row'.status == row.status;
    assert Records(Loaded(json, row)) + NewRecords([]) == Records(Loaded(json, row));
  }

  lemma AppendedToNothing(offered: seq<string>)
    ensures AppendedTo([], offered) == Novel({}, offered)
  {
    assert Trimmed([]) == {};
  }

  lemma OldKeysAre(json: Json, text: string)
    requires text != []
    ensures OldKeys(json, text) == if Unreadable(json, text) then [] else GetKeys(json, text)
  {
  }

  lemma AppendToReadable(json: Json, row: Row, offered: seq<string>)
    requires row.text != [] && Aligned(Loaded(json, row)) && !Unreadable(json, row.text)
    ensures var keys := GetKeys(json, row.text);
      var text := Join(AppendedTo(keys, offered), NEWLINE);
      Exactly(json, Committed(json, row, row.(text := text)),
              Records(Loaded(json, row)) + NewRecords(Novel(Trimmed(keys), offered))) <==>
      text == [] || Writable(json, AppendedTo(keys, offered))
  {
    var keys := GetKeys(json, row.text);
    var added := Novel(Trimmed(keys), offered);
    JoinEmpty(keys + added);
    ReadBackIff(json, keys + added);
    NovelNotEmpty(Trimmed(keys), offered);
    if Join(keys + added, NEWLINE) == [] {
      assert added == [] by {
        assert forall k | k in added :: k in keys + added;
      }
      GrownByNothing(json, row);
    } else {
      GrownIff(json, row, Join(keys + added, NEWLINE), added);
    }
  }

  lemma AppendToUnreadable(json: Json, row: Row, offered: seq<string>)
    requires Aligned(Loaded(json, row))
    ensures var keys, alone := GetKeys(json, row.text), Novel({}, offered);
      Exactly(json, Committed(json, row, row.(text := Join(alone, NEWLINE))),
              Records(Loaded(json, row)) + NewRecords(Novel(Trimmed(keys), offered))) <==>
      alone == [] || GetKeys(json, Join(alone, NEWLINE)) == AppendedTo(keys, offered)
  {
    var keys, alone := GetKeys(json, row.text), Novel({}, offered);
    NovelNotEmpty(Trimmed(keys), offered);
    NovelNotEmpty({}, offered);
    JoinEmpty(alone);
    if alone == [] {
      GrownByNothing(json, row);
    } else {
      assert alone[0] in alone;
      GrownIff(json, row, Join(alone, NEWLINE), Novel(Trimmed(keys), offered));
    }
  }

  lemma AppendMeans(json: Json, v: View, input: string, vertex: bool, offered: seq<string>)
    requires v.text != [] && Offered(json, input, vertex) == Some(offered)
    ensures Effect(json, v, AppendKeys(input, vertex))
            == View(TextAfter(v.text, AppendedTo(OldKeys(json, v.text), offered)),
                    v.rs + NewRecords(Novel(Trimmed(KeysOf(v.rs)), offered)))
    ensures Torn(json, v, AppendKeys(input, vertex)) <==>
            if Unreadable(json, v.text) then
              var alone := Novel({}, offered);
              alone != [] && GetKeys(json, Join(alone, NEWLINE)) != AppendedTo(KeysOf(v.rs), offered)
            else
              var all := AppendedTo(KeysOf(v.rs), offered);
              Join(all, NEWLINE) != [] && !Writable(json, all)
  {
  }

  lemma SameText(json: Json, row': Row, v: View)
    requires row'.text == v.text
    ensures Reads(json, row', v) <==> Exactly(json, row', v.rs)
  {
  }

  /** Appending leaves the old records with the new keys after them if and only if the old text
      can be read and the whole list is writable - or nothing is written, or the new keys alone
      happen to read as that list. */
  lemma AppendExactIff(json: Json, row: Row, input: string, vertex: bool)
    requires row.text != [] && Aligned(Loaded(json, row)) && Offered(json, input, vertex).Some?
    ensures var written := AppendedTo(OldKeys(json, row.text), Offered(json, input, vertex).value);
      Performed(json, Committed(json, row, row.(text := Join(written, NEWLINE))), ViewOf(json, row),
                AppendKeys(input, vertex))
  {
    var offered, v := Offered(json, input, vertex).value, ViewOf(json, row);
    var text := Join(AppendedTo(OldKeys(json, row.text), offered), NEWLINE);
    KeysOfRecords(Loaded(json, row));
    OldKeysAre(json, row.text);
    AppendMeans(json, v, input, vertex, offered);
    SameText(json, Committed(json, row, row.(text := text)), Effect(json, v, AppendKeys(input, vertex)));
    if Unreadable(json, row.text) {
      AppendedToNothing(offered);
      AppendToUnreadable(json, row, offered);
    } else {
      AppendToReadable(json, row, offered);
    }
  }

  // ----- Inputs that are torn -----

  /** A key that is neither padded nor the beginning of an array. */
  predicate Ordinary(k: string) { k != [] && Bare(k, IsSpace) && k[0] != BRACKET && NEWLINE !in k }

  lemma OrdinaryText(json: Json, text: string)
    requires text != [] && Bare(text, IsSpace) && text[0] != BRACKET
    ensures !Bracketed(text) && GetKeys(json, text) == Lines(text)
  {
    TrimBare(text, IsSpace);
  }

  lemma OneKey(json: Json, k: string)
    requires Ordinary(k)
    ensures GetKeys(json, k) == [k] && Join([k], NEWLINE) == k
  {
    OrdinaryText(json, k);
    LinesOfJoin([k]);
  }

  lemma JoinTwo(x: string, y: string)
    ensures Join([x, y], NEWLINE) == x + [NEWLINE] + y
  {
    assert [x, y][1..] == [y] && Join([y], NEWLINE) == y;
  }

  lemma TwoLines(x: string, y: string)
    requires x != [] && y != [] && NEWLINE !in x && NEWLINE !in y
    ensures Lines(x + [NEWLINE] + y) == [x, y]
  {
    JoinTwo(x, y);
    LinesOfJoin([x, y]);
  }

  /** The keys x, an empty one and y, of which y was automatically disabled. */
  function GappedRow(x: string, y: string): Row {
    Row(Join([x, [], y], NEWLINE), 3, map[2 := AUTO_DISABLED], map[], map[])
  }

  lemma GappedKeys(json: Json, x: string, y: string)
    requires Ordinary(x) && Ordinary(y)
    ensures GetKeys(json, GappedRow(x, y).text) == [x, [], y]
  {
    var text := GappedRow(x, y).text;
    JoinTwo([], y);
    assert [x, [], y][1..] == [[], y];
    assert text == x + [NEWLINE] + ([[]][0] + [NEWLINE] + y);
    OrdinaryText(json, text);
    LinesOfJoin([x, [], y]);
  }

  lemma LeadingNewline(json: Json, y: string)
    requires Ordinary(y)
    ensures Join([[], y], NEWLINE) == [NEWLINE] + y && GetKeys(json, [NEWLINE] + y) == [y]
  {
    var text := [NEWLINE] + y;
    JoinTwo([], y);
    assert text[1..] == y && y[0] in y && y[|y| - 1] in y;
    TrimBare(y, c => c == NEWLINE);
    TrimBare(y, IsSpace);
    assert Trim(text, c => c == NEWLINE) == Trim(y, c => c == NEWLINE);
    assert TrimSpace(text) == TrimSpace(y);
    SplitWhole(y, NEWLINE);
  }

  /** Deleting x writes an empty line first; y then reads as the first key, and as enabled. */
  lemma EmptyLineEnablesKey(json: Json, x: string, y: string)
    requires Ordinary(x) && Ordinary(y)
    ensures var rest := Ring([[], y], map[1 := AUTO_DISABLED], map[], map[]);
      && GetKeys(json, GappedRow(x, y).text) == [x, [], y] && Aligned(Loaded(json, GappedRow(x, y)))
      && Records(rest) == Deleted(Records(Loaded(json, GappedRow(x, y))), 0)
      && Records(Loaded(json, Committed(json, GappedRow(x, y), Written(rest)))) == [Record(y, ENABLED, None, None)]
  {
    GappedKeys(json, x, y);
    LeadingNewline(json, y);
  }

  /** Deleting x leaves y, which decodes as an array and reads as its elements. */
  lemma ArrayKeyReadsApart(json: Json, x: string, y: string, elems: seq<string>)
    requires Ordinary(x) && y != [] && Bare(y, IsSpace) && y[0] == BRACKET && NEWLINE !in y
    requires json.elements(y) == Some(elems)
    ensures var row := Row(x + [NEWLINE] + y, 2, map[], map[], map[]);
      && GetKeys(json, row.text) == [x, y]
      && GetKeys(json, Committed(json, row, Written(Ring([y], map[], map[], map[]))).text) == elems
  {
    TwoLines(x, y);
    OrdinaryText(json, x + [NEWLINE] + y);
    TrimBare(y, IsSpace);
    assert Join([y], NEWLINE) == y;
  }

  /** The keys a and [1]: after deleting a, the one key is 1. */
  lemma ArrayKeyExample(json: Json)
    requires json.elements("[1]") == Some(["1"])
    ensures var row := Row("a" + [NEWLINE] + "[1]", 2, map[], map[], map[]);
      && GetKeys(json, row.text) == ["a", "[1]"]
      && GetKeys(json, Committed(json, row, Written(Ring(["[1]"], map[], map[], map[]))).text) == ["1"]
  {
    ArrayKeyReadsApart(json, "a", "[1]", ["1"]);
  }

  /** Appending an ordinary key to a text that begins with a bracket and does not decode: every
      old key is lost, and the new one takes over what the maps say of the first. */
  lemma UnreadableLosesKeys(json: Json, row: Row, k: string)
    requires Unreadable(json, row.text) && row.text != [] && Ordinary(k)
    ensures var row' := Committed(json, row, row.(text := Join(AppendedTo(OldKeys(json, row.text), [k]), NEWLINE)));
      Records(Loaded(json, row')) == [Record(k, StatusAt(row.status, 0), Lookup(row.time, 0), Lookup(row.reason, 0))]
  {
    OneKey(json, k);
    TrimBare(k, IsSpace);
    AppendedToNothing([k]);
    assert [k][..0] == [];
    assert AppendedTo(OldKeys(json, row.text), [k]) == [k];
    var row' := Committed(json, row, row.(text := k));
    CountFits(json, k);
    OrdinaryText(json, k);
    assert RecordAt(Loaded(json, row'), 0)
           == Record(k, StatusAt(row.status, 0), Lookup(row.time, 0), Lookup(row.reason, 0));
  }

  /** The keys x and y, where x begins with a bracket and was automatically disabled, and k
      appended: k alone is left, and disabled. */
  lemma BracketedKeyLosesAll(json: Json, x: string, y: string, k: string)
    requires x != [] && y != [] && Bare(x, IsSpace) && Bare(y, IsSpace) && NEWLINE !in x && NEWLINE !in y
    requires x[0] == BRACKET && json.elements(x + [NEWLINE] + y).None? && Ordinary(k)
    ensures var row := Row(x + [NEWLINE] + y, 2, map[0 := AUTO_DISABLED], map[], map[]);
      && GetKeys(json, row.text) == [x, y]
      && var row' := Committed(json, row, row.(text := Join(AppendedTo(OldKeys(json, row.text), [k]), NEWLINE)));
         Records(Loaded(json, row')) == [Record(k, AUTO_DISABLED, None, None)]
  {
    var row := Row(x + [NEWLINE] + y, 2, map[0 := AUTO_DISABLED], map[], map[]);
    TrimBare(row.text, IsSpace);
    TwoLines(x, y);
    UnreadableLosesKeys(json, row, k);
  }

  lemma BracketedKeyExample(json: Json)
    requires json.elements("[abc" + [NEWLINE] + "k2").None?
    ensures var row := Row("[abc" + [NEWLINE] + "k2", 2, map[0 := AUTO_DISABLED], map[], map[]);
      && GetKeys(json, row.text) == ["[abc", "k2"]
      && var row' := Committed(json, row, row.(text := Join(AppendedTo(OldKeys(json, row.text), ["n"]), NEWLINE)));
         Records(Loaded(json, row')) == [Record("n", AUTO_DISABLED, None, None)]
  {
    BracketedKeyLosesAll(json, "[abc", "k2", "n");
  }

  // ----- The channel -----

  class Channel {
    var row: Row
    const json: Json

    constructor (json: Json, row: Row)
      ensures this.row == row && this.json == json
    {
      this.row := row;
      this.json := json;
    }

    function Now(): View
      reads this
    {
      ViewOf(json, row)
    }

    predicate Tidy()
      reads this
    {
      Aligned(Loaded(json, row))
    }

    /** channel.Update; the database may refuse it. */
    method Update(next: Row, saved: bool, count: nat) returns (reply: Reply)
      requires Valid(json, row)
      modifies this`row
      ensures Valid(json, row) && row == (if saved then Committed(json, old(row), next) else old(row))
      ensures reply == if saved then Done(count) else NotSaved
    {
      if !saved { return NotSaved; }
      row := Committed(json, row, next);
      return Done(count);
    }

    method DisableKey(index: Option<int>, saved: bool) returns (reply: Reply)
      requires Valid(json, row)
      modifies this`row
      ensures Valid(json, row) && (saved || row == old(row))
      ensures saved ==> Now().rs == Effect(json, old(Now()), Action.DisableKey(index)).rs
      ensures reply == if !(index.Some? && 0 <= index.value < old(row.size)) then Rejected
                       else if saved then Done(1) else NotSaved
      ensures saved && old(Tidy()) ==> Performed(json, row, old(Now()), Action.DisableKey(index))
    {
      CountFits(json, row.text);
      if index.None? { return Rejected; }
      var i := index.value;
      if i < 0 || i >= row.size { return Rejected; }
      var next := row.(status := row.status[i := MANUALLY_DISABLED]);
      if i < |GetKeys(json, row.text)| { RecordsSet(Loaded(json, row), Loaded(json, next), i); }
      SameKeys(json, row, next);
      if Hollow(json, row.text) { HollowStatus(json, row, next, i); }
      reply := Update(next, saved, 1);
    }

    method EnableKey(index: Option<int>, saved: bool) returns (reply: Reply)
      requires Valid(json, row)
      modifies this`row
      ensures Valid(json, row) && (saved || row == old(row))
      ensures saved ==> Now().rs == Effect(json, old(Now()), Action.EnableKey(index)).rs
      ensures reply == if !(index.Some? && 0 <= index.value < old(row.size)) then Rejected
                       else if saved then Done(1) else NotSaved
      ensures saved && old(Tidy()) ==> Performed(json, row, old(Now()), Action.EnableKey(index))
    {
      CountFits(json, row.text);
      if index.None? { return Rejected; }
      var i := index.value;
      if i < 0 || i >= row.size { return Rejected; }
      var next := row.(status := row.status - {i}, time := row.time - {i}, reason := row.reason - {i});
      EnabledRecords(Loaded(json, row), i);
      SameKeys(json, row, next);
      reply := Update(next, saved, 1);
    }

    method EnableAllKeys(saved: bool) returns (reply: Reply)
      requires Valid(json, row)
      modifies this`row
      ensures Valid(json, row) && (saved || row == old(row))
      ensures saved ==> Now().rs == Effect(json, old(Now()), EnableAll).rs
      ensures reply == if saved then Done(|old(row).status|) else NotSaved
      ensures saved ==> Performed(json, row, old(Now()), EnableAll)
    {
      var next := row.(status := map[], time := map[], reason := map[]);
      SameKeys(json, row, next);
      assert Records(Loaded(json, next)) == ResetAll(Records(Loaded(json, row)));
      reply := Update(next, saved, |row.status|);
    }

    /** Disables by position, up to the recorded size. Without an empty array these are the
        keys, and the count is that of the enabled ones. */
    method DisableAllKeys(saved: bool) returns (reply: Reply)
      requires Valid(json, row)
      modifies this`row
      ensures Valid(json, row) && (saved || row == old(row))
      ensures saved ==> Now().rs == Effect(json, old(Now()), DisableAll).rs
      ensures reply == var n := CountEnabled(old(row.status), old(row.size));
        if n == 0 then Rejected else if saved then Done(n) else NotSaved
      ensures saved && old(Tidy()) ==> Performed(json, row, old(Now()), DisableAll)
      ensures !Hollow(json, old(row.text)) ==>
              CountEnabled(old(row.status), old(row.size)) == CountStatus(old(Now()).rs, ENABLED)
    {
      var status, count := DisabledCopy(row);
      ghost var rs := Records(Loaded(json, row));
      CountFits(json, row.text);
      EnabledAre(Loaded(json, row), |rs|);
      assert rs[..|rs|] == rs;
      if count == 0 {
        NoneEnabled(row.status, row.size);
        assert DisableEach(rs) == rs;
        if Hollow(json, row.text) && Tidy() { EnabledBeyond(row.status, row.size); }
        return Rejected;
      }
      var next := row.(status := status);
      assert Records(Loaded(json, next)) == DisableEach(rs);
      SameKeys(json, row, next);
      if Hollow(json, row.text) && Tidy() {
        assert StatusAt(status, 0) == Off(StatusAt(row.status, 0));
        HollowStatus(json, row, next, 0);
      }
      reply := Update(next, saved, count);
    }

    /** Copies every other key and shifts its map entries down to its new position. */
    method DeleteKey(index: Option<int>, saved: bool) returns (reply: Reply)
      requires Valid(json, row)
      modifies this`row
      ensures Valid(json, row) && (saved || row == old(row))
      ensures reply == if !(InRange(old(Now()).rs, index) && |old(Now()).rs| > 1) then Rejected
                       else if saved then Done(1) else NotSaved
      ensures saved && (reply.Done? || old(Tidy())) ==> Performed(json, row, old(Now()), Action.DeleteKey(index))
      ensures reply.Done? ==> Rewritten(json, old(row), row, Deleted(old(Now()).rs, index.value))
    {
      CountFits(json, row.text);
      if index.None? { return Rejected; }
      var k := index.value;
      if k < 0 || k >= row.size { return Rejected; }
      var ring := Loaded(json, row);
      if |ring.keys| == 0 { return Rejected; }   // the loop finds nothing to keep
      var next := CopyWithout(ring, k);
      if |next.keys| == 0 { return Rejected; }
      DeleteKeyExactIff(json, row, k, next);
      reply := Update(Written(next), saved, 1);
    }

    /** Deletes the automatically disabled keys. When that leaves none, the empty key text is
        not written, so every key stays, and stays enabled. */
    method DeleteDisabledKeys(saved: bool) returns (reply: Reply)
      requires Valid(json, row)
      modifies this`row
      ensures Valid(json, row) && (saved || row == old(row))
      ensures reply == var n := CountStatus(old(Now()).rs, AUTO_DISABLED);
        if n == 0 then Rejected else if saved then Done(n) else NotSaved
      ensures saved && (reply.Done? || old(Tidy())) ==> Performed(json, row, old(Now()), DeleteDisabled)
      ensures reply.Done? ==> Rewritten(json, old(row), row, Purge(old(Now()).rs))
      ensures saved && (reply.Done? || old(Tidy())) ==>
              (Exactly(json, row, Filter(old(Now()).rs, NotAuto())) <==> PurgeIsFilter(json, old(Now()).rs))
    {
      var next, deleted := PurgedCopy(Loaded(json, row));
      if deleted == 0 {
        if Tidy() { PurgedNothing(json, row); }
        FilteredNothing(json, Records(Loaded(json, row)));
        return Rejected;
      }
      DeleteDisabledIsFilterIff(json, row, next);
      reply := Update(Written(next), saved, deleted);
    }

    /** The append mode of UpdateChannel; the maps stay as they are. */
    method AppendKeys(input: string, vertex: bool, saved: bool) returns (reply: Reply)
      requires Valid(json, row)
      modifies this`row
      ensures Valid(json, row) && (saved || row == old(row))
      ensures reply == if old(row.text) != [] && Offered(json, input, vertex).None? then Rejected
                       else if saved then Done(0) else NotSaved
      ensures saved && old(Tidy()) ==> Performed(json, row, old(Now()), Action.AppendKeys(input, vertex))
      ensures reply.Done? ==> row == Committed(json, old(row), old(row).(text :=
                if old(row.text) == [] then input
                else Join(AppendedTo(OldKeys(json, old(row.text)), Offered(json, input, vertex).value), NEWLINE)))
    {
      if row.text == [] {
        if Tidy() { AppendedToNone(json, row, input, vertex); }
        reply := Update(row.(text := input), saved, 0);
        return;
      }
      var offered := Offered(json, input, vertex);
      if offered.None? { return Rejected; }
      var was := OldKeys(json, row.text);
      var added := NovelKeys(was, offered.value);
      if Tidy() { AppendExactIff(json, row, input, vertex); }
      reply := Update(row.(text := Join(was + added, NEWLINE)), saved, 0);
    }

    method Perform(action: Action, saved: bool)
      requires Valid(json, row)
      modifies this`row
      ensures Valid(json, row) && (saved || row == old(row))
      ensures saved && old(Tidy()) ==> Performed(json, row, old(Now()), action)
    {
      match action
      case DisableKey(index) => var _ := DisableKey(index, saved);
      case EnableKey(index) => var _ := EnableKey(index, saved);
      case EnableAll => var _ := EnableAllKeys(saved);
      case DisableAll => var _ := DisableAllKeys(saved);
      case DeleteKey(index) => var _ := DeleteKey(index, saved);
      case DeleteDisabled => var _ := DeleteDisabledKeys(saved);
      case AppendKeys(input, vertex) => var _ := AppendKeys(input, vertex, saved);
    }

    /** Under every sequence of actions, accepted or rejected, saved or not, an aligned row
        stays aligned and reads as the list of records that the same actions give, as long as
        none is torn. */
    method PerformAll(requests: seq<Request>)
      requires Valid(json, row)
      modifies this`row
      ensures Valid(json, row)
      ensures old(Tidy()) && NeverTorn(json, old(Now()), requests) ==>
              Reads(json, row, Effects(json, old(Now()), requests))
    {
      ghost var v, tidy := Now(), Tidy();
      for n := 0 to |requests|
        invariant Valid(json, row)
        invariant tidy && NeverTorn(json, v, requests[..n]) ==> Reads(json, row, Effects(json, v, requests[..n]))
      {
        assert requests[..n + 1][..n] == requests[..n];
        Perform(requests[n].action, requests[n].saved);
      }
      assert requests[..|requests|] == requests;
    }
  }

  // ----- Status pages -----

  datatype KeyStatus = KeyStatus(index: nat, status: int, time: int, reason: string)

  /** What the listing shows of a record: disable information only for a disabled key. */
  function Shown(i: nat, r: Record): KeyStatus {
    if r.status == ENABLED then KeyStatus(i, r.status, 0, [])
    else KeyStatus(i, r.status, if r.time.Some? then r.time.value else 0, if r.reason.Some? then r.reason.value else [])
  }

  function Listing(rs: seq<Record>): seq<KeyStatus> {
    seq(|rs|, i requires 0 <= i < |rs| => Shown(i, rs[i]))
  }

  /** What a line of the listing shows: the position, the status and, for a key that is not
      enabled, since when and why, as far as known. */
  lemma ListingIs(rs: seq<Record>, i: nat)
    requires i < |rs|
    ensures var line := Listing(rs)[i];
      && |Listing(rs)| == |rs| && line.index == i && line.status == rs[i].status
      && line.time == (if rs[i].status != 1 && rs[i].time.Some? then rs[i].time.value else 0)
      && line.reason == (if rs[i].status != 1 && rs[i].reason.Some? then rs[i].reason.value else "")
  {
  }

  function HasStatus(status: Option<int>): KeyStatus -> bool {
    (k: KeyStatus) => status.None? || k.status == status.value
  }

  /** Filtering by a status keeps as many lines as there are keys with it, all of that status;
      without one it keeps them all. */
  lemma {:induction false} FilteredIs(rs: seq<Record>, status: int)
    ensures |Filter(Listing(rs), HasStatus(Some(status)))| == CountStatus(rs, status)
    ensures forall k | k in Filter(Listing(rs), HasStatus(Some(status))) :: k.status == status
    ensures Filter(Listing(rs), HasStatus(None)) == Listing(rs)
    decreases |rs|
  {
    FilterAll(Listing(rs), HasStatus(None));
    if rs != [] {
      var n := |rs| - 1;
      FilteredIs(rs[..n], status);
      assert Listing(rs)[..n] == Listing(rs[..n]);
    }
  }

  function PageCount(total: nat, size: nat): nat
    requires size > 0
  {
    var n := (total + size - 1) / size;
    if n == 0 then 1 else n
  }

  function Page(xs: seq<KeyStatus>, page: nat, size: nat): seq<KeyStatus>
    requires page > 0 && size > 0
  {
    var start := (page - 1) * size;
    if start < |xs| then xs[start..if start + size < |xs| then start + size else |xs|] else []
  }

  /** The whole listing, with counts per status. */
  method BuildListing(ring: Ring) returns (all: seq<KeyStatus>, enabled: nat, manual: nat, auto: nat)
    ensures all == Listing(Records(ring))
    ensures enabled == CountStatus(Records(ring), ENABLED) && manual == CountStatus(Records(ring), MANUALLY_DISABLED)
         && auto == CountStatus(Records(ring), AUTO_DISABLED)
  {
    enabled, manual, auto := 0, 0, 0;
    all := [];
    ghost var rs := Records(ring);
    for i := 0 to |ring.keys|
      invariant all == Listing(rs)[..i]
      invariant enabled == CountStatus(rs[..i], ENABLED) && manual == CountStatus(rs[..i], MANUALLY_DISABLED)
             && auto == CountStatus(rs[..i], AUTO_DISABLED)
    {
      assert rs[..i + 1][..i] == rs[..i];
      var s := StatusAt(ring.status, i);
      var time, reason := 0, "";
      if s == ENABLED {
        enabled := enabled + 1;
      } else if s == MANUALLY_DISABLED {
        manual := manual + 1;
      } else if s == AUTO_DISABLED {
        auto := auto + 1;
      }
      if s != ENABLED {
        if i in ring.time { time := ring.time[i]; }
        if i in ring.reason { reason := ring.reason[i]; }
      }
      assert KeyStatus(i, s, time, reason) == Shown(i, rs[i]);
      all := all + [KeyStatus(i, s, time, reason)];
    }
    assert rs[..|ring.keys|] == rs;
  }

  method FilterListing(all: seq<KeyStatus>, status: Option<int>) returns (filtered: seq<KeyStatus>)
    ensures filtered == Filter(all, HasStatus(status))
  {
    if status.None? {
      FilterAll(all, HasStatus(status));
      return all;
    }
    filtered := [];
    for i := 0 to |all|
      invariant filtered == Filter(all[..i], HasStatus(status))
    {
      assert all[..i + 1][..i] == all[..i];
      if all[i].status == status.value { filtered := filtered + [all[i]]; }
    }
    assert all[..|all|] == all;
  }

  /** get_key_status: the requested page of the filtered listing, and counts over all keys. */
  method KeyStatusPage(json: Json, row: Row, page: int, pageSize: int, status: Option<int>)
    returns (shown: seq<KeyStatus>, total: nat, page': nat, pages: nat, enabled: nat, manual: nat, auto: nat)
    ensures var size := if pageSize <= 0 then 50 else pageSize;
      var filtered := Filter(Listing(Records(Loaded(json, row))), HasStatus(status));
      && total == |filtered| && pages == PageCount(total, size)
      && page' == (if page <= 0 then 1 else if page > pages then pages else page)
      && shown == Page(filtered, page', size)
    ensures var rs := Records(Loaded(json, row));
      && enabled == CountStatus(rs, ENABLED) && manual == CountStatus(rs, MANUALLY_DISABLED)
      && auto == CountStatus(rs, AUTO_DISABLED)
  {
    var size := if pageSize <= 0 then 50 else pageSize;
    page' := if page <= 0 then 1 else page;
    var all;
    all, enabled, manual, auto := BuildListing(Loaded(json, row));
    var filtered := FilterListing(all, status);
    total := |filtered|;
    pages := PageCount(total, size);
    if page' > pages { page' := pages; }
    shown := Page(filtered, page', size);
  }

  function Pages(xs: seq<KeyStatus>, n: nat, size: nat): seq<KeyStatus>
    requires size > 0
  {
    if n == 0 then [] else Pages(xs, n - 1, size) + Page(xs, n, size)
  }

  lemma {:induction false} PagesArePrefix(xs: seq<KeyStatus>, n: nat, size: nat)
    requires size > 0
    ensures Pages(xs, n, size) == xs[..if n * size < |xs| then n * size else |xs|]
    decreases n
  {
    if n > 0 {
      PagesArePrefix(xs, n - 1, size);
      assert (n - 1) * size + size == n * size;
    }
  }

  /** There are just enough pages: all but the last do not suffice, unless there is only one. */
  lemma RoundUp(total: nat, size: nat)
    requires size > 0
    ensures PageCount(total, size) * size >= total
    ensures PageCount(total, size) == 1 || (PageCount(total, size) - 1) * size < total
  {
    var q := (total + size - 1) / size;
    assert q * size + (total + size - 1) % size == total + size - 1;
    assert (q - 1) * size == q * size - size;
  }

  /** Reading all pages one after the other gives the whole listing, once; every page but the
      last is full, and no page is empty unless it is the only one. */
  lemma AllPagesGiveTheListing(xs: seq<KeyStatus>, size: nat)
    requires size > 0
    ensures Pages(xs, PageCount(|xs|, size), size) == xs
    ensures PageCount(|xs|, size) == 1 || (PageCount(|xs|, size) - 1) * size < |xs|
  {
    RoundUp(|xs|, size);
    PagesArePrefix(xs, PageCount(|xs|, size), size);
  }
}

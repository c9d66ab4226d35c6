/** Request bodies kept in memory or in a cache file behind one interface, and the usage
    counters both kinds share. Files are byte sequences; a regular file reads in full. */
module BodyStorage {
  import opened Text

  // ----- The byte store both kinds are meant to be -----

  datatype Store = Store(data: seq<byte>, pos: nat, closed: bool)

  datatype Op = Read(n: nat) | Seek(offset: int, whence: int) | Bytes | NewReader | Close

  datatype Answer = Got(bytes: seq<byte>) | EndOfFile | At(pos: nat) | Content(bytes: seq<byte>)
                  | FreshReader(bytes: seq<byte>) | StorageClosed | BadSeek | Done

  function Chunk(data: seq<byte>, pos: nat, n: nat): seq<byte>
    requires pos <= |data|
  {
    if pos + n <= |data| then data[pos..pos + n] else data[pos..]
  }

  /** io.Seeker: whence 0, 1, 2 are start, current, end; a negative position is an error. */
  function Target(data: seq<byte>, pos: nat, offset: int, whence: int): Option<nat> {
    var base := if whence == 0 then Some(0) else if whence == 1 then Some(pos)
                else if whence == 2 then Some(|data|) else None;
    if base.None? || base.value + offset < 0 then None else Some(base.value + offset)
  }

  /** bytes.Reader.Read reports the end before it looks at the buffer's length. */
  function MemoryRead(s: Store, n: nat): (Store, Answer) {
    if s.pos >= |s.data| then (s, EndOfFile)
    else var bytes := Chunk(s.data, s.pos, n); (s.(pos := s.pos + |bytes|), Got(bytes))
  }

  /** os.File.Read returns at once, without an error, for an empty buffer. */
  function DiskRead(s: Store, n: nat): (Store, Answer) {
    if n == 0 then (s, Got([]))
    else if s.pos >= |s.data| then (s, EndOfFile)
    else var bytes := Chunk(s.data, s.pos, n); (s.(pos := s.pos + |bytes|), Got(bytes))
  }

  function Step(disk: bool, s: Store, op: Op): (Store, Answer) {
    match op
    case Close => (s.(closed := true), Done)
    case Read(n) => if s.closed then (s, StorageClosed) else if disk then DiskRead(s, n) else MemoryRead(s, n)
    case Seek(offset, whence) =>
      if s.closed then (s, StorageClosed)
      else var t := Target(s.data, s.pos, offset, whence);
        if t.None? then (s, BadSeek) else (s.(pos := t.value), At(t.value))
    case Bytes => (s, if s.closed then StorageClosed else Content(s.data))
    case NewReader => (s, if s.closed then StorageClosed else FreshReader(s.data))
  }

  /** Seeking: the position counts from the start, from the cursor or from the end; anything else
      and anything before the start is refused and moves nothing. */
  lemma SeekIs(disk: bool, s: Store, offset: int, whence: int)
    requires !s.closed
    ensures var (s', a) := Step(disk, s, Seek(offset, whence));
      var to := if whence == 0 then offset else if whence == 1 then s.pos + offset else |s.data| + offset;
      if 0 <= whence <= 2 && to >= 0 then a == At(to) && s' == Store(s.data, to, false) else a == BadSeek && s' == s
  {
  }

  /** Reading everything, or opening a reader, gives the whole body and moves nothing. */
  lemma ContentIs(disk: bool, s: Store)
    requires !s.closed
    ensures Step(disk, s, Bytes) == (s, Content(s.data)) && Step(disk, s, NewReader) == (s, FreshReader(s.data))
    ensures Step(disk, s, Close) == (s.(closed := true), Done)
  {
  }

  /** A closed storage refuses everything but being closed again, and stays as it is. */
  lemma ClosedIs(disk: bool, s: Store, op: Op)
    requires s.closed
    ensures Step(disk, s, op) == (s, if op.Close? then Done else StorageClosed)
  {
  }

  // ----- The two implementations -----

  datatype Counters = Counters(diskFiles: int, diskBytes: int, memoryBuffers: int, memoryBytes: int)

  function DiskOpened(c: Counters, size: nat): Counters {
    c.(diskFiles := c.diskFiles + 1, diskBytes := c.diskBytes + size)
  }

  function AtLeastZero(n: int): int { if n < 0 then 0 else n }

  function DiskClosed(c: Counters, size: nat): Counters {
    c.(diskFiles := AtLeastZero(c.diskFiles - 1), diskBytes := AtLeastZero(c.diskBytes - size))
  }

  function MemoryOpened(c: Counters, size: nat): Counters {
    c.(memoryBuffers := c.memoryBuffers + 1, memoryBytes := c.memoryBytes + size)
  }

  function MemoryClosed(c: Counters, size: nat): Counters {
    c.(memoryBuffers := c.memoryBuffers - 1, memoryBytes := c.memoryBytes - size)
  }

  /** Closing a file takes its size off, and neither count goes below zero. */
  lemma DiskClosedIs(c: Counters, size: nat)
    ensures var c' := DiskClosed(c, size);
      && c'.diskFiles == (if c.diskFiles >= 1 then c.diskFiles - 1 else 0)
      && c'.diskBytes == (if c.diskBytes >= size then c.diskBytes - size else 0)
      && c'.memoryBuffers == c.memoryBuffers && c'.memoryBytes == c.memoryBytes
  {
  }

  class Stats {
    var diskFiles: int
    var diskBytes: int
    var memoryBuffers: int
    var memoryBytes: int

    constructor ()
      ensures View() == Counters(0, 0, 0, 0)
    {
      diskFiles, diskBytes, memoryBuffers, memoryBytes := 0, 0, 0, 0;
    }

    function View(): Counters
      reads this
    {
      Counters(diskFiles, diskBytes, memoryBuffers, memoryBytes)
    }

    method IncrementDiskFiles(size: nat)
      modifies this
      ensures View() == DiskOpened(old(View()), size)
    {
      diskFiles := diskFiles + 1;
      diskBytes := diskBytes + size;
    }

    method DecrementDiskFiles(size: nat)
      modifies this
      ensures View() == DiskClosed(old(View()), size)
    {
      diskFiles := diskFiles - 1;
      if diskFiles < 0 { diskFiles := 0; }
      diskBytes := diskBytes - size;
      if diskBytes < 0 { diskBytes := 0; }
    }

    method IncrementMemoryBuffers(size: nat)
      modifies this
      ensures View() == MemoryOpened(old(View()), size)
    {
      memoryBuffers := memoryBuffers + 1;
      memoryBytes := memoryBytes + size;
    }

    method DecrementMemoryBuffers(size: nat)
      modifies this
      ensures View() == MemoryClosed(old(View()), size)
    {
      memoryBuffers := memoryBuffers - 1;
      memoryBytes := memoryBytes - size;
    }
  }

  /** bytes.Reader. */
  class ByteReader {
    const data: seq<byte>
    var i: nat

    constructor (data: seq<byte>)
      ensures this.data == data && i == 0
    {
      this.data := data;
      i := 0;
    }
  }

  class MemoryStorage {
    const data: seq<byte>
    const reader: ByteReader
    const size: nat
    const stats: Stats
    var closed: bool

    ghost predicate Valid() { reader.data == data && size == |data| }

    function View(): Store
      reads this, reader
    {
      Store(data, reader.i, closed)
    }

    constructor (data: seq<byte>, stats: Stats)
      modifies stats
      ensures Valid() && fresh(reader) && this.stats == stats && View() == Store(data, 0, false)
      ensures stats.View() == MemoryOpened(old(stats.View()), |data|)
    {
      this.data := data;
      reader := new ByteReader(data);
      size := |data|;
      this.stats := stats;
      closed := false;
      new;
      stats.IncrementMemoryBuffers(size);
    }

    method Read(n: nat) returns (a: Answer)
      requires Valid()
      modifies reader
      ensures (View(), a) == Step(false, old(View()), Op.Read(n))
    {
      if closed { return StorageClosed; }
      if reader.i >= |reader.data| { return EndOfFile; }
      var bytes := Chunk(reader.data, reader.i, n);
      reader.i := reader.i + |bytes|;
      return Got(bytes);
    }

    method Seek(offset: int, whence: int) returns (a: Answer)
      requires Valid()
      modifies reader
      ensures (View(), a) == Step(false, old(View()), Op.Seek(offset, whence))
    {
      if closed { return StorageClosed; }
      var abs;
      match whence {
        case 0 => abs := offset;
        case 1 => abs := reader.i + offset;
        case 2 => abs := |reader.data| + offset;
        case _ => return BadSeek;
      }
      if abs < 0 { return BadSeek; }
      reader.i := abs;
      return At(abs);
    }

    method Close() returns (a: Answer)
      requires Valid()
      modifies this, stats
      ensures (View(), a) == Step(false, old(View()), Op.Close)
      ensures stats.View() == if old(closed) then old(stats.View()) else MemoryClosed(old(stats.View()), size)
    {
      if !closed {
        closed := true;
        stats.DecrementMemoryBuffers(size);
      }
      return Done;
    }

    method Bytes() returns (a: Answer)
      requires Valid()
      ensures (View(), a) == Step(false, View(), Op.Bytes)
    {
      if closed { return StorageClosed; }
      return Content(data);
    }

    method NewReader() returns (a: Answer)
      requires Valid()
      ensures (View(), a) == Step(false, View(), Op.NewReader)
    {
      if closed { return StorageClosed; }
      var independent := new ByteReader(data);
      return FreshReader(independent.data);
    }
  }

  /** An open file and its position. */
  class File {
    var content: seq<byte>
    var pos: nat

    constructor ()
      ensures content == [] && pos == 0
    {
      content, pos := [], 0;
    }

    /** Writing to a file that is at its end. */
    method Append(data: seq<byte>)
      requires pos == |content|
      modifies this
      ensures content == old(content) + data && pos == |content|
    {
      content := content + data;
      pos := |content|;
    }

    method Seek(offset: int, whence: int) returns (t: Option<nat>)
      modifies this`pos
      ensures t == Target(content, old(pos), offset, whence)
      ensures pos == if t.Some? then t.value else old(pos)
    {
      t := Target(content, pos, offset, whence);
      if t.Some? { pos := t.value; }
    }

    method Read(n: nat) returns (a: Answer)
      modifies this`pos
      ensures var s := Store(content, old(pos), false); (Store(content, pos, false), a) == DiskRead(s, n)
    {
      if n == 0 { return Got([]); }
      if pos >= |content| { return EndOfFile; }
      var bytes := Chunk(content, pos, n);
      pos := pos + |bytes|;
      return Got(bytes);
    }
  }

  class DiskStorage {
    const file: File
    const size: nat
    const stats: Stats
    var closed: bool

    ghost predicate Valid()
      reads file
    {
      size == |file.content|
    }

    function View(): Store
      reads this, file
    {
      Store(file.content, file.pos, closed)
    }

    constructor (data: seq<byte>, stats: Stats)
      modifies stats
      ensures Valid() && fresh(file) && this.stats == stats && View() == Store(data, 0, false)
      ensures stats.View() == DiskOpened(old(stats.View()), |data|)
    {
      var f := new File();
      f.Append(data);
      var _ := f.Seek(0, 0);
      file := f;
      size := |data|;
      this.stats := stats;
      closed := false;
      new;
      stats.IncrementDiskFiles(size);
    }

    method Read(n: nat) returns (a: Answer)
      requires Valid()
      modifies file`pos
      ensures Valid() && (View(), a) == Step(true, old(View()), Op.Read(n))
    {
      if closed { return StorageClosed; }
      a := file.Read(n);
    }

    method Seek(offset: int, whence: int) returns (a: Answer)
      requires Valid()
      modifies file`pos
      ensures Valid() && (View(), a) == Step(true, old(View()), Op.Seek(offset, whence))
    {
      if closed { return StorageClosed; }
      var t := file.Seek(offset, whence);
      return if t.Some? then At(t.value) else BadSeek;
    }

    method Close() returns (a: Answer)
      requires Valid()
      modifies this, stats
      ensures Valid() && (View(), a) == Step(true, old(View()), Op.Close)
      ensures stats.View() == if old(closed) then old(stats.View()) else DiskClosed(old(stats.View()), size)
    {
      if !closed {
        closed := true;
        stats.DecrementDiskFiles(size);
      }
      return Done;
    }

    /** Saves the position, rewinds, reads everything and restores the position. */
    method Bytes() returns (a: Answer)
      requires Valid()
      modifies file`pos
      ensures Valid() && (View(), a) == Step(true, old(View()), Op.Bytes)
    {
      if closed { return StorageClosed; }
      var current := file.Seek(0, 1);
      var _ := file.Seek(0, 0);
      var whole: seq<byte> := [];
      if size > 0 {
        var chunk := file.Read(size);
        whole := chunk.bytes;
      }
      assert whole == file.content;
      var _ := file.Seek(current.value, 0);
      return Content(whole);
    }

    method NewReader() returns (a: Answer)
      requires Valid()
      ensures (View(), a) == Step(true, View(), Op.NewReader)
    {
      if closed { return StorageClosed; }
      return FreshReader(file.content);
    }
  }

  // ----- The two kinds compared -----

  /** A zero-length read at or after the end. */
  predicate EmptyReadAtEnd(s: Store, op: Op) { op == Read(0) && !s.closed && s.pos >= |s.data| }

  lemma StepsAgree(s: Store, op: Op)
    ensures Step(false, s, op).0 == Step(true, s, op).0
    ensures Step(false, s, op).1 == Step(true, s, op).1 <==> !EmptyReadAtEnd(s, op)
  {
  }

  function Run(disk: bool, s: Store, ops: seq<Op>): (Store, seq<Answer>)
    decreases |ops|
  {
    if ops == [] then (s, [])
    else
      var (s', answer) := Step(disk, s, ops[0]);
      var (end, answers) := Run(disk, s', ops[1..]);
      (end, [answer] + answers)
  }

  ghost predicate NoEmptyReadAtEnd(s: Store, ops: seq<Op>)
    decreases |ops|
  {
    ops == [] || (!EmptyReadAtEnd(s, ops[0]) && NoEmptyReadAtEnd(Step(false, s, ops[0]).0, ops[1..]))
  }

  /** Over any sequence of operations both kinds end in the same state with the same bytes, and
      they give the same answers if and only if no empty buffer is read at the end. */
  lemma {:induction false} KindsAgreeIff(s: Store, ops: seq<Op>)
    ensures Run(false, s, ops).0 == Run(true, s, ops).0 && Run(false, s, ops).0.data == s.data
    ensures Run(false, s, ops).1 == Run(true, s, ops).1 <==> NoEmptyReadAtEnd(s, ops)
    decreases |ops|
  {
    if ops != [] {
      StepsAgree(s, ops[0]);
      var s' := Step(false, s, ops[0]).0;
      KindsAgreeIff(s', ops[1..]);
      var a, b := Run(false, s, ops).1, Run(true, s, ops).1;
      assert a[0] == Step(false, s, ops[0]).1 && b[0] == Step(true, s, ops[0]).1;
      assert a[1..] == Run(false, s', ops[1..]).1 && b[1..] == Run(true, s', ops[1..]).1;
      assert a == [a[0]] + a[1..] && b == [b[0]] + b[1..];
    }
  }

  lemma OneRead(disk: bool, s: Store, n: nat)
    requires !s.closed && s.pos <= |s.data| && n > 0
    ensures var (s', a) := Step(disk, s, Read(n));
      && s' == s.(pos := if s.pos + n <= |s.data| then s.pos + n else |s.data|)
      && (if a.Got? then a.bytes else []) == s.data[s.pos..s'.pos]
  {
  }

  ghost function AfterReads(disk: bool, s: Store, sizes: seq<nat>): (Store, seq<byte>)
    decreases |sizes|
  {
    if sizes == [] then (s, [])
    else
      var (s', a) := Step(disk, s, Read(sizes[0]));
      var (end, rest) := AfterReads(disk, s', sizes[1..]);
      (end, (if a.Got? then a.bytes else []) + rest)
  }

  lemma FirstRead(disk: bool, s: Store, sizes: seq<nat>)
    requires !s.closed && s.pos <= |s.data| && sizes != [] && sizes[0] > 0
    ensures var s' := s.(pos := if s.pos + sizes[0] <= |s.data| then s.pos + sizes[0] else |s.data|);
      var (end, rest) := AfterReads(disk, s', sizes[1..]);
      AfterReads(disk, s, sizes) == (end, s.data[s.pos..s'.pos] + rest)
  {
    OneRead(disk, s, sizes[0]);
  }

  /** Reading in pieces of any positive sizes from the start, until the end is reported, gives
      exactly the stored bytes: nothing is skipped or repeated, for either kind. */
  lemma {:induction false} ReadsGiveTheBytes(disk: bool, s: Store, sizes: seq<nat>)
    requires !s.closed && s.pos <= |s.data| && forall k | 0 <= k < |sizes| :: sizes[k] > 0
    ensures var s' := AfterReads(disk, s, sizes).0;
      && s.pos <= s'.pos <= |s.data| && s'.data == s.data && !s'.closed
      && AfterReads(disk, s, sizes).1 == s.data[s.pos..s'.pos]
      && (s'.pos < |s.data| ==> s'.pos - s.pos >= |sizes|)
    decreases |sizes|
  {
    if sizes != [] {
      FirstRead(disk, s, sizes);
      var s' := s.(pos := if s.pos + sizes[0] <= |s.data| then s.pos + sizes[0] else |s.data|);
      ReadsGiveTheBytes(disk, s', sizes[1..]);
      var end := AfterReads(disk, s', sizes[1..]).0;
      assert s.data[s.pos..s'.pos] + s.data[s'.pos..end.pos] == s.data[s.pos..end.pos];
    }
  }

  // ----- Creation -----

  datatype Config = Config(enabled: bool, thresholdMB: int, maxMB: int)

  const MIB := 1048576

  predicate Available(cfg: Config, c: Counters, size: int) {
    cfg.enabled && c.diskBytes + size <= cfg.maxMB * MIB
  }

  datatype Storage = InMemory(m: MemoryStorage) | OnDisk(d: DiskStorage)

  datatype Created = Stored(storage: Storage) | TooLarge | DiskFailed | ReadFailed

  function PartsOf(storage: Storage): set<object> {
    match storage case InMemory(m) => {m, m.reader} case OnDisk(d) => {d, d.file}
  }

  ghost function ViewOf(storage: Storage): Store
    reads PartsOf(storage)
  {
    match storage case InMemory(m) => m.View() case OnDisk(d) => d.View()
  }

  /** The storage is the one a creation with these counters would make. */
  ghost predicate SoundFor(storage: Storage, stats: Stats, size: nat)
    reads PartsOf(storage)
  {
    match storage
    case InMemory(m) => m.Valid() && m.stats == stats && m.size == size
    case OnDisk(d) => d.Valid() && d.stats == stats && d.size == size
  }

  function ObjectOf(storage: Storage): object {
    match storage case InMemory(m) => m case OnDisk(d) => d
  }

  predicate PrefersDisk(cfg: Config, c: Counters, size: nat) {
    cfg.enabled && size >= cfg.thresholdMB * MIB && Available(cfg, c, size)
  }

  function Opened(c: Counters, disk: bool, size: nat): Counters {
    if disk then DiskOpened(c, size) else MemoryOpened(c, size)
  }

  /** CreateBodyStorage. `diskOk` is whether the file can be created and written; if not, the
      body is kept in memory. */
  method CreateBodyStorage(cfg: Config, stats: Stats, data: seq<byte>, diskOk: bool) returns (storage: Storage)
    modifies stats
    ensures fresh(ObjectOf(storage)) && SoundFor(storage, stats, |data|) && ViewOf(storage) == Store(data, 0, false)
    ensures storage.OnDisk? <==> PrefersDisk(cfg, old(stats.View()), |data|) && diskOk
    ensures storage.OnDisk? <==>
            && cfg.enabled && diskOk && |data| >= cfg.thresholdMB * 1048576
            && old(stats.diskBytes) + |data| <= cfg.maxMB * 1048576
    ensures stats.View() == Opened(old(stats.View()), storage.OnDisk?, |data|)
  {
    if cfg.enabled && |data| >= cfg.thresholdMB * MIB && Available(cfg, stats.View(), |data|) && diskOk {
      var d := new DiskStorage(data, stats);
      return OnDisk(d);
    }
    var m := new MemoryStorage(data, stats);
    return InMemory(m);
  }

  predicate StreamsToDisk(cfg: Config, c: Counters, contentLength: int) {
    cfg.enabled && contentLength > 0 && contentLength >= cfg.thresholdMB * MIB && Available(cfg, c, contentLength)
  }

  /** io.LimitReader(reader, max + 1), read to its end. */
  function Limited(body: seq<byte>, maxBytes: int): seq<byte> {
    if maxBytes + 1 <= 0 then [] else if |body| <= maxBytes + 1 then body else body[..maxBytes + 1]
  }

  /** A reader that delivers the body and then the end of input or, if `broken`, an error. The
      limit hides an error that would come after max + 1 bytes. */
  predicate Breaks(body: seq<byte>, maxBytes: int, broken: bool) { broken && |body| <= maxBytes }

  /** CreateBodyStorageFromReader. Whichever path is taken, creation succeeds with exactly the
      body if and only if the reader gives all of it and it is at most maxBytes long - except
      that a disk failure on the streaming path is reported instead. */
  method CreateFromReader(cfg: Config, stats: Stats, body: seq<byte>, broken: bool, contentLength: int, maxBytes: int,
                          diskOk: bool)
    returns (created: Created)
    modifies stats
    ensures created.DiskFailed? <==> StreamsToDisk(cfg, old(stats.View()), contentLength) && !diskOk
    ensures !created.DiskFailed? ==> (created.Stored? <==> !broken && |body| <= maxBytes)
    ensures !created.DiskFailed? ==> (created.ReadFailed? <==> broken && |body| <= maxBytes)
    ensures created.Stored? ==> fresh(ObjectOf(created.storage)) && SoundFor(created.storage, stats, |body|)
    ensures created.Stored? ==> ViewOf(created.storage) == Store(body, 0, false)
    ensures created.Stored? ==> (created.storage.OnDisk? <==>
              StreamsToDisk(cfg, old(stats.View()), contentLength)
              || (PrefersDisk(cfg, old(stats.View()), |body|) && diskOk))
    ensures StreamsToDisk(cfg, old(stats.View()), contentLength) <==>
            && cfg.enabled && contentLength > 0 && contentLength >= cfg.thresholdMB * 1048576
            && old(stats.diskBytes) + contentLength <= cfg.maxMB * 1048576
    ensures stats.View() == if created.Stored? then Opened(old(stats.View()), created.storage.OnDisk?, |body|)
                            else old(stats.View())
  {
    if StreamsToDisk(cfg, stats.View(), contentLength) {
      if !diskOk { return DiskFailed; }
      if Breaks(body, maxBytes, broken) { return ReadFailed; }
      var written := Limited(body, maxBytes);
      if |written| > maxBytes { return TooLarge; }
      var d := new DiskStorage(written, stats);
      return Stored(OnDisk(d));
    }
    if Breaks(body, maxBytes, broken) { return ReadFailed; }
    var data := Limited(body, maxBytes);
    if |data| > maxBytes { return TooLarge; }
    var storage := CreateBodyStorage(cfg, stats, data, diskOk);
    return Stored(storage);
  }

  // ----- Accounting over every run -----

  datatype Holding = Holding(disk: bool, size: nat, open: bool)

  datatype Ledger = Ledger(counters: Counters, holdings: seq<Holding>)

  const NEW_LEDGER := Ledger(Counters(0, 0, 0, 0), [])

  /** Creations that store a body of the given size, and closes, possibly repeated. */
  datatype Event =
    | Create(size: nat, diskOk: bool)
    | CreateFrom(size: nat, broken: bool, contentLength: int, maxBytes: int, diskOk: bool)
    | CloseStorage(i: nat)

  function Recorded(l: Ledger, disk: bool, size: nat): Ledger {
    Ledger(Opened(l.counters, disk, size), l.holdings + [Holding(disk, size, true)])
  }

  function Occur(cfg: Config, l: Ledger, e: Event): Ledger {
    match e
    case Create(size, diskOk) => Recorded(l, PrefersDisk(cfg, l.counters, size) && diskOk, size)
    case CreateFrom(size, broken, contentLength, maxBytes, diskOk) =>
      var streams := StreamsToDisk(cfg, l.counters, contentLength);
      if (streams && !diskOk) || broken || size > maxBytes then l
      else Recorded(l, streams || (PrefersDisk(cfg, l.counters, size) && diskOk), size)
    case CloseStorage(i) =>
      if i >= |l.holdings| || !l.holdings[i].open then l
      else
        var h := l.holdings[i];
        Ledger(if h.disk then DiskClosed(l.counters, h.size) else MemoryClosed(l.counters, h.size),
               l.holdings[i := h.(open := false)])
  }

  function OccurAll(cfg: Config, l: Ledger, es: seq<Event>): Ledger {
    if es == [] then l else Occur(cfg, OccurAll(cfg, l, es[..|es| - 1]), es[|es| - 1])
  }

  // ----- The storages themselves -----

  datatype Call =
    | Keep(data: seq<byte>, diskOk: bool)
    | KeepFrom(body: seq<byte>, broken: bool, contentLength: int, maxBytes: int, diskOk: bool)
    | CloseAt(i: nat)

  function EventOf(call: Call): Event {
    match call
    case Keep(data, diskOk) => Create(|data|, diskOk)
    case KeepFrom(body, broken, contentLength, maxBytes, diskOk) =>
      CreateFrom(|body|, broken, contentLength, maxBytes, diskOk)
    case CloseAt(i) => CloseStorage(i)
  }

  function EventsOf(calls: seq<Call>): seq<Event> {
    seq(|calls|, i requires 0 <= i < |calls| => EventOf(calls[i]))
  }

  ghost predicate Matches(storage: Storage, stats: Stats, h: Holding)
    reads PartsOf(storage)
  {
    SoundFor(storage, stats, h.size) && storage.OnDisk? == h.disk && ViewOf(storage).closed == !h.open
  }

  method CloseStorageAt(storage: Storage, stats: Stats, ghost h: Holding)
    requires Matches(storage, stats, h)
    modifies ObjectOf(storage), stats
    ensures Matches(storage, stats, h.(open := false))
    ensures stats.View() == if !h.open then old(stats.View()) else if h.disk then DiskClosed(old(stats.View()), h.size)
                            else MemoryClosed(old(stats.View()), h.size)
  {
    match storage
    case InMemory(m) => var _ := m.Close();
    case OnDisk(d) => var _ := d.Close();
  }

  ghost function Objects(storages: seq<Storage>): set<object> {
    set k | 0 <= k < |storages| :: ObjectOf(storages[k])
  }

  ghost predicate Ledgered(storages: seq<Storage>, stats: Stats, l: Ledger)
    reads stats, set k, o | 0 <= k < |storages| && o in PartsOf(storages[k]) :: o
  {
    && stats.View() == l.counters && |storages| == |l.holdings|
    && (forall k | 0 <= k < |storages| :: Matches(storages[k], stats, l.holdings[k]))
    && (forall j, k | 0 <= j < k < |storages| :: ObjectOf(storages[j]) != ObjectOf(storages[k]))
  }

  method Open(cfg: Config, stats: Stats, storages: seq<Storage>, call: Call, ghost l: Ledger)
    returns (storages': seq<Storage>)
    requires Ledgered(storages, stats, l) && !call.CloseAt?
    modifies stats
    ensures Ledgered(storages', stats, Occur(cfg, l, EventOf(call)))
    ensures storages <= storages' && forall k | |storages| <= k < |storages'| :: fresh(ObjectOf(storages'[k]))
  {
    storages' := storages;
    match call
    case Keep(data, diskOk) =>
      var storage := CreateBodyStorage(cfg, stats, data, diskOk);
      storages' := storages + [storage];
    case KeepFrom(body, broken, contentLength, maxBytes, diskOk) =>
      var created := CreateFromReader(cfg, stats, body, broken, contentLength, maxBytes, diskOk);
      if created.Stored? { storages' := storages + [created.storage]; }
  }

  method Shut(cfg: Config, stats: Stats, storages: seq<Storage>, i: nat, ghost l: Ledger)
    requires Ledgered(storages, stats, l)
    modifies stats, Objects(storages)
    ensures Ledgered(storages, stats, Occur(cfg, l, CloseStorage(i)))
  {
    if i < |storages| {
      assert ObjectOf(storages[i]) in Objects(storages);
      CloseStorageAt(storages[i], stats, l.holdings[i]);
    }
  }

  /** The storages themselves, created and closed as the calls say, stay with the ledger. */
  method Serve(cfg: Config, calls: seq<Call>) returns (stats: Stats, storages: seq<Storage>)
    ensures Ledgered(storages, stats, OccurAll(cfg, NEW_LEDGER, EventsOf(calls)))
  {
    stats := new Stats();
    storages := [];
    ghost var es, l := EventsOf(calls), NEW_LEDGER;
    for n := 0 to |calls|
      invariant fresh(stats) && forall k | 0 <= k < |storages| :: fresh(ObjectOf(storages[k]))
      invariant l == OccurAll(cfg, NEW_LEDGER, es[..n]) && Ledgered(storages, stats, l)
    {
      assert es[..n + 1][..n] == es[..n];
      if calls[n].CloseAt? {
        Shut(cfg, stats, storages, calls[n].i, l);
      } else {
        storages := Open(cfg, stats, storages, calls[n], l);
      }
      l := Occur(cfg, l, es[n]);
    }
    assert es[..|calls|] == es;
  }

  /** What the counters should be: the open storages of each kind and their sizes. */
  function Totals(hs: seq<Holding>): (c: Counters)
    ensures c.diskFiles >= 0 && c.diskBytes >= 0
  {
    if hs == [] then Counters(0, 0, 0, 0)
    else
      var h := hs[|hs| - 1];
      var rest := Totals(hs[..|hs| - 1]);
      if h.open then Opened(rest, h.disk, h.size) else rest
  }

  lemma {:induction false} TotalsClose(hs: seq<Holding>, i: nat)
    requires i < |hs| && hs[i].open
    ensures Totals(hs) == Opened(Totals(hs[i := hs[i].(open := false)]), hs[i].disk, hs[i].size)
    decreases |hs|
  {
    var n := |hs| - 1;
    var closed := hs[i := hs[i].(open := false)];
    if i == n {
      assert closed[..n] == hs[..n];
    } else {
      TotalsClose(hs[..n], i);
      assert closed[..n] == hs[..n][i := hs[i].(open := false)];
    }
  }

  /** How many storages of the kind are open, and their sizes added up. */
  ghost function OpenCount(hs: seq<Holding>, disk: bool): int {
    if hs == [] then 0
    else
      var h := hs[|hs| - 1];
      OpenCount(hs[..|hs| - 1], disk) + (if h.open && h.disk == disk then 1 else 0)
  }

  ghost function OpenBytes(hs: seq<Holding>, disk: bool): int {
    if hs == [] then 0
    else
      var h := hs[|hs| - 1];
      OpenBytes(hs[..|hs| - 1], disk) + (if h.open && h.disk == disk then h.size else 0)
  }

  lemma {:induction false} TotalsAre(hs: seq<Holding>)
    ensures Totals(hs) == Counters(OpenCount(hs, true), OpenBytes(hs, true), OpenCount(hs, false), OpenBytes(hs, false))
    decreases |hs|
  {
    if hs != [] { TotalsAre(hs[..|hs| - 1]); }
  }

  /** In every run the counters equal the number and total size of the open storages; the
      clamp at zero never has an effect. */
  lemma {:induction false} CountersAreTotals(cfg: Config, es: seq<Event>)
    ensures var l := OccurAll(cfg, NEW_LEDGER, es);
      && l.counters == Totals(l.holdings)
      && l.counters == Counters(OpenCount(l.holdings, true), OpenBytes(l.holdings, true),
                                OpenCount(l.holdings, false), OpenBytes(l.holdings, false))
    decreases |es|
  {
    TotalsAre(OccurAll(cfg, NEW_LEDGER, es).holdings);
    if es != [] {
      CountersAreTotals(cfg, es[..|es| - 1]);
      var l := OccurAll(cfg, NEW_LEDGER, es[..|es| - 1]);
      var l' := Occur(cfg, l, es[|es| - 1]);
      if es[|es| - 1].CloseStorage? {
        var i := es[|es| - 1].i;
        if i < |l.holdings| && l.holdings[i].open { TotalsClose(l.holdings, i); }
      } else if |l'.holdings| > |l.holdings| {
        assert l'.holdings[..|l'.holdings| - 1] == l.holdings;
      }
    }
  }

  predicate Within(cfg: Config, c: Counters) { c.diskBytes <= AtLeastZero(cfg.maxMB * MIB) }

  /** A condition on the call alone: a body that can be stored is no longer than the length
      declared for it, if one is declared. */
  predicate Honest(e: Event) {
    e.CreateFrom? ==> e.contentLength <= 0 || e.size <= e.contentLength || e.size > e.maxBytes
  }

  lemma HonestStep(cfg: Config, l: Ledger, e: Event)
    requires Within(cfg, l.counters) && l.counters.diskBytes >= 0 && Honest(e)
    ensures Within(cfg, Occur(cfg, l, e).counters)
  {
  }

  /** In every run without understated lengths, disk usage never exceeds the maximum. */
  lemma {:induction false} UsageStaysBounded(cfg: Config, es: seq<Event>)
    requires forall e | e in es :: Honest(e)
    ensures Within(cfg, OccurAll(cfg, NEW_LEDGER, es).counters)
    decreases |es|
  {
    if es != [] {
      UsageStaysBounded(cfg, es[..|es| - 1]);
      CountersAreTotals(cfg, es[..|es| - 1]);
      assert es[|es| - 1] in es;
      HonestStep(cfg, OccurAll(cfg, NEW_LEDGER, es[..|es| - 1]), es[|es| - 1]);
    }
  }

  /** Whatever the configuration and whatever was stored before, the event does not take disk
      usage past a maximum that was respected so far. */
  ghost predicate NeverExceeds(e: Event) {
    forall cfg, es :: Within(cfg, OccurAll(cfg, NEW_LEDGER, es).counters) ==>
                      Within(cfg, OccurAll(cfg, NEW_LEDGER, es + [e]).counters)
  }

  lemma OccurLast(cfg: Config, es: seq<Event>, e: Event)
    ensures OccurAll(cfg, NEW_LEDGER, es + [e]) == Occur(cfg, OccurAll(cfg, NEW_LEDGER, es), e)
  {
    assert (es + [e])[..|es + [e]| - 1] == es;
  }

  /** A creation is safe after every run, on a working or failing disk, if and only if it does
      not understate the length of a body that can be stored. */
  lemma UsageBoundedIff(size: nat, contentLength: int, maxBytes: int)
    ensures (forall broken, diskOk :: NeverExceeds(CreateFrom(size, broken, contentLength, maxBytes, diskOk))) <==>
            contentLength <= 0 || size <= contentLength || size > maxBytes
  {
    if contentLength <= 0 || size <= contentLength || size > maxBytes {
      forall broken, diskOk ensures NeverExceeds(CreateFrom(size, broken, contentLength, maxBytes, diskOk)) {
        HonestNeverExceeds(CreateFrom(size, broken, contentLength, maxBytes, diskOk));
      }
    } else {
      UnderstatedExceeds(CreateFrom(size, false, contentLength, maxBytes, true));
    }
  }

  lemma HonestNeverExceeds(e: Event)
    requires Honest(e)
    ensures NeverExceeds(e)
  {
    forall cfg, es | Within(cfg, OccurAll(cfg, NEW_LEDGER, es).counters)
      ensures Within(cfg, OccurAll(cfg, NEW_LEDGER, es + [e]).counters)
    {
      CountersAreTotals(cfg, es);
      OccurLast(cfg, es, e);
      HonestStep(cfg, OccurAll(cfg, NEW_LEDGER, es), e);
    }
  }

  /** The witness fills the disk up to exactly the declared length. */
  lemma UnderstatedExceeds(e: Event)
    requires !Honest(e) && e.diskOk && !e.broken
    ensures !NeverExceeds(e)
  {
    var length := e.contentLength;
    var cfg := Config(true, 0, length);
    var filler := Create(length * MIB - length, true);
    OccurLast(cfg, [], filler);
    assert [] + [filler] == [filler];
    OccurLast(cfg, [filler], e);
    assert Within(cfg, OccurAll(cfg, NEW_LEDGER, [filler]).counters);
    assert !Within(cfg, OccurAll(cfg, NEW_LEDGER, [filler] + [e]).counters);
  }

  /** A declared length of one byte admits a body of twice the maximum. */
  lemma UnderstatedLengthExceeds()
    ensures var cfg := Config(true, 0, 1);
      !Within(cfg, OccurAll(cfg, NEW_LEDGER, [CreateFrom(2 * MIB, false, 1, 4 * MIB, true)]).counters)
  {
    var e := CreateFrom(2 * MIB, false, 1, 4 * MIB, true);
    OccurLast(Config(true, 0, 1), [], e);
    assert [] + [e] == [e];
  }
}

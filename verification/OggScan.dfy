/** The duration of an Opus file: the scan over Ogg pages for the largest granule position.
    Page layout after section 6 of RFC 3533; the 48 kHz granule clock is that of section 4
    of RFC 7845. */
module OggScan {
  import opened Text

  const HEADER := 27

  function LittleEndian(bs: seq<byte>): nat {
    if bs == [] then 0 else bs[0] + 256 * LittleEndian(bs[1..])
  }

  const TWO63 := 0x8000_0000_0000_0000

  /** int64(uint64): values from 2^63 on are negative. */
  function Signed64(n: nat): int { if n < TWO63 then n else n - 2 * TWO63 }

  function Total(bs: seq<byte>): nat { if bs == [] then 0 else Total(bs[..|bs| - 1]) + bs[|bs| - 1] }

  function Max(a: int, b: int): int { if a > b then a else b }

  ghost function ByteAt(bs: seq<byte>, i: nat): int
    requires i < |bs|
  {
    bs[i]
  }

  lemma Unroll(bs: seq<byte>, i: nat)
    requires i + 1 < |bs|
    ensures LittleEndian(bs[i..]) == ByteAt(bs, i) + 256 * ByteAt(bs, i + 1) + 65536 * LittleEndian(bs[i + 2..])
  {
    assert bs[i..][1..] == bs[i + 1..] && bs[i + 1..][1..] == bs[i + 2..];
  }

  /** Eight bytes, the least significant first, as a signed 64-bit integer. */
  ghost function Int64(a: int, b: int, c: int, d: int, e: int, f: int, g: int, h: int): int {
    a + 0x100 * b + 0x1_0000 * c + 0x100_0000 * d + 0x1_0000_0000 * e + 0x100_0000_0000 * f
    + 0x1_0000_0000_0000 * g + 0x100_0000_0000_0000 * (if h < 128 then h else h - 256)
  }

  lemma Words(v: nat, v2: nat, v4: nat, v6: nat, a: int, b: int, c: int, d: int, e: int, f: int, g: int, h: int)
    requires 0 <= a < 256 && 0 <= b < 256 && 0 <= c < 256 && 0 <= d < 256
    requires 0 <= e < 256 && 0 <= f < 256 && 0 <= g < 256 && 0 <= h < 256
    requires v == a + 256 * b + 65536 * v2 && v2 == c + 256 * d + 65536 * v4
    requires v4 == e + 256 * f + 65536 * v6 && v6 == g + 256 * h
    ensures Signed64(v) == Int64(a, b, c, d, e, f, g, h)
  {
  }

  lemma GranuleIs(bs: seq<byte>)
    requires |bs| == 8
    ensures Signed64(LittleEndian(bs)) == Int64(bs[0], bs[1], bs[2], bs[3], bs[4], bs[5], bs[6], bs[7])
  {
    Unroll(bs, 0);
    Unroll(bs, 2);
    Unroll(bs, 4);
    Unroll(bs, 6);
    assert bs[0..] == bs && bs[8..] == [];
    Words(LittleEndian(bs), LittleEndian(bs[2..]), LittleEndian(bs[4..]), LittleEndian(bs[6..]),
          ByteAt(bs, 0), ByteAt(bs, 1), ByteAt(bs, 2), ByteAt(bs, 3),
          ByteAt(bs, 4), ByteAt(bs, 5), ByteAt(bs, 6), ByteAt(bs, 7));
  }

  lemma {:induction false} TotalAppend(a: seq<byte>, b: seq<byte>)
    ensures Total(a + b) == Total(a) + Total(b)
    decreases |b|
  {
    if b == [] {
      assert a + b == a;
    } else {
      TotalAppend(a, b[..|b| - 1]);
      assert (a + b)[..|a + b| - 1] == a + b[..|b| - 1];
    }
  }

  /** The lacing values add up: one more value adds itself. */
  lemma TotalIs(table: seq<byte>, b: byte)
    ensures Total([]) == 0 && Total([b]) == b && Total(table + [b]) == Total(table) + b
  {
    TotalAppend(table, [b]);
    assert [b][..0] == [];
  }

  /** The bytes of "OggS" start at pos. */
  predicate CapturesAt(file: seq<byte>, pos: nat) {
    pos + 4 <= |file| && file[pos] == 0x4f && file[pos + 1] == 0x67 && file[pos + 2] == 0x67 && file[pos + 3] == 0x53
  }

  function GranuleAt(file: seq<byte>, pos: nat): int
    requires pos + HEADER <= |file|
  {
    Signed64(LittleEndian(file[pos + 6..pos + 14]))
  }

  /** The page at pos has its whole segment table in the file. */
  predicate TableFits(file: seq<byte>, pos: nat) {
    pos + HEADER <= |file| && pos + HEADER + file[pos + 26] <= |file|
  }

  /** The first byte after the page that starts at pos. */
  function PageEnd(file: seq<byte>, pos: nat): nat
    requires TableFits(file, pos)
  {
    var table := pos + HEADER;
    table + file[pos + 26] + Total(file[table..table + file[pos + 26]])
  }

  /** What scanning from pos on makes of the best granule position so far. */
  function Scan(file: seq<byte>, pos: nat, best: int): int
    decreases |file| - pos
  {
    if pos + HEADER > |file| then best
    else if !CapturesAt(file, pos) then Scan(file, pos + 1, best)
    else if !TableFits(file, pos) then Max(best, GranuleAt(file, pos))
    else Scan(file, PageEnd(file, pos), Max(best, GranuleAt(file, pos)))
  }

  lemma SubSlice(s: seq<byte>, pos: nat, n: nat, a: nat, b: nat)
    requires pos + n <= |s| && a <= b <= n
    ensures s[pos..pos + n][a..b] == s[pos + a..pos + b]
  {
    var t := s[pos..pos + n];
    forall i | 0 <= i < b - a ensures t[a..b][i] == s[pos + a..pos + b][i] { }
  }

  method SegmentTotal(table: seq<byte>) returns (size: nat)
    ensures size == Total(table)
  {
    size := 0;
    for i := 0 to |table|
      invariant size == Total(table[..i])
    {
      assert table[..i + 1][..i] == table[..i];
      size := size + table[i];
    }
    assert table[..|table|] == table;
  }

  /** The loop of getOpusDuration: a position in a seekable file, a 27-byte read per round, one
      byte forward when there is no capture pattern, a page forward when there is one. It ends
      on every byte string. */
  method OpusGranule(file: seq<byte>) returns (total: int)
    ensures total == Scan(file, 0, 0)
  {
    total := 0;
    var pos: nat := 0;
    while pos + HEADER <= |file|   // otherwise the read hits the end or comes up short
      invariant Scan(file, 0, 0) == Scan(file, pos, total)
      decreases |file| - pos
    {
      var buf := file[pos..pos + HEADER];
      SubSlice(file, pos, HEADER, 6, 14);
      pos := pos + HEADER;
      if !CapturesAt(buf, 0) {
        pos := pos - 26;
        continue;
      }
      var granule := Signed64(LittleEndian(buf[6..14]));
      if granule > total { total := granule; }
      var segments := buf[26];
      if |file| - pos < segments { return; }
      var table := file[pos..pos + segments];
      pos := pos + segments;
      var pageSize := SegmentTotal(table);
      pos := pos + pageSize;
    }
  }

  method OpusDuration(file: seq<byte>) returns (seconds: real)
    ensures seconds == Scan(file, 0, 0) as real / 48000.0
  {
    var total := OpusGranule(file);
    seconds := total as real / 48000.0;
  }

  // ----- Files made of pages -----

  /** A page as section 6 of RFC 3533 lays it out: the capture pattern, 22 more header bytes
      with the granule position at 6, the segment count, that many lacing values, and a payload
      as long as they add up to. */
  ghost predicate IsPage(page: seq<byte>) {
    CapturesAt(page, 0) && TableFits(page, 0) && PageEnd(page, 0) == |page|
  }

  /** Pages written field by field: the four letters, two bytes, the granule position, twelve
      bytes, the number of lacing values, those, and a payload as long as they add up to. */
  lemma PageIs(lead: seq<byte>, granule: seq<byte>, rest: seq<byte>, table: seq<byte>, payload: seq<byte>)
    requires |lead| == 2 && |granule| == 8 && |rest| == 12 && |table| < 256
    ensures var letters: seq<byte> := [79, 103, 103, 83];
      var page := letters + lead + granule + rest + [|table|] + table + payload;
      && (IsPage(page) <==> |payload| == Total(table))
      && GranuleAt(page, 0) == Signed64(LittleEndian(granule))
  {
    var letters: seq<byte> := [79, 103, 103, 83];
    var head := letters + lead + granule + rest + [|table|];
    var page := head + table + payload;
    assert |head| == HEADER;
    assert page[6..14] == head[6..14] == granule;
    assert page[26] == |table| && page[27..27 + |table|] == table;
    assert CapturesAt(page, 0) && TableFits(page, 0);
  }

  /** A page, and whatever precedes it since the page before. */
  datatype Piece = Piece(junk: seq<byte>, page: seq<byte>)

  ghost predicate WellFormed(pieces: seq<Piece>) { forall i | 0 <= i < |pieces| :: IsPage(pieces[i].page) }

  ghost function Stream(pieces: seq<Piece>, tail: seq<byte>): seq<byte> {
    if pieces == [] then tail else pieces[0].junk + pieces[0].page + Stream(pieces[1..], tail)
  }

  /** No position from a up to b starts the capture pattern. */
  ghost predicate Silent(file: seq<byte>, a: nat, b: nat) {
    forall q: nat | a <= q < b :: !CapturesAt(file, q)
  }

  /** From pos on, where the pieces lie, the bytes before each page and after the last one
      start no capture pattern. */
  ghost predicate Clean(file: seq<byte>, pos: nat, pieces: seq<Piece>)
    decreases |pieces|
  {
    if pieces == [] then Silent(file, pos, |file|)
    else
      var start := pos + |pieces[0].junk|;
      Silent(file, pos, start) && Clean(file, start + |pieces[0].page|, pieces[1..])
  }

  ghost function Largest(pieces: seq<Piece>, best: int): int
    requires WellFormed(pieces)
  {
    if pieces == [] then best else Largest(pieces[1..], Max(best, GranuleAt(pieces[0].page, 0)))
  }

  /** Where no capture pattern starts, the scan moves on byte by byte and learns nothing. */
  lemma {:induction false} SkipSilent(file: seq<byte>, a: nat, b: nat, best: int)
    requires a <= b <= |file| && Silent(file, a, b)
    ensures Scan(file, a, best) == Scan(file, b, best)
    decreases b - a
  {
    if a < b && a + HEADER <= |file| {
      SkipSilent(file, a + 1, b, best);
    }
  }

  /** A page with this granule position starts at pos and ends at end. */
  ghost predicate PageAt(file: seq<byte>, pos: nat, end: nat, granule: int) {
    CapturesAt(file, pos) && TableFits(file, pos) && PageEnd(file, pos) == end && GranuleAt(file, pos) == granule
  }

  lemma PageFields(file: seq<byte>, pos: nat, page: seq<byte>)
    requires IsPage(page) && pos + |page| <= |file| && file[pos..pos + |page|] == page
    ensures PageAt(file, pos, pos + |page|, GranuleAt(page, 0))
  {
    SubSlice(file, pos, |page|, 6, 14);
    SubSlice(file, pos, |page|, HEADER, HEADER + page[26]);
    assert forall i | 0 <= i < |page| :: file[pos + i] == page[i];
  }

  /** From a page boundary the scan takes in the page's granule position and lands on the
      next boundary. */
  lemma OnePage(file: seq<byte>, pos: nat, page: seq<byte>, best: int)
    requires IsPage(page) && pos + |page| <= |file| && file[pos..pos + |page|] == page
    ensures Scan(file, pos, best) == Scan(file, pos + |page|, Max(best, GranuleAt(page, 0)))
  {
    PageFields(file, pos, page);
  }

  /** A page cut off inside its segment table still counts, and ends the scan. */
  lemma CutPageCounts(file: seq<byte>, pos: nat, best: int)
    requires pos + 27 <= |file| && CapturesAt(file, pos) && pos + 27 + file[pos + 26] > |file|
    ensures Scan(file, pos, best) == if GranuleAt(file, pos) > best then GranuleAt(file, pos) else best
  {
  }

  /** Fewer than 27 bytes are not looked at. */
  lemma ShortRestIgnored(file: seq<byte>, pos: nat, best: int)
    requires pos + 27 > |file|
    ensures Scan(file, pos, best) == best
  {
  }

  lemma StreamStep(file: seq<byte>, pos: nat, pieces: seq<Piece>, tail: seq<byte>)
    requires pieces != [] && pos <= |file| && file[pos..] == Stream(pieces, tail)
    ensures var start := pos + |pieces[0].junk|;
      var end := start + |pieces[0].page|;
      end <= |file| && file[start..end] == pieces[0].page && file[end..] == Stream(pieces[1..], tail)
  {
  }

  lemma {:induction false} ScanStream(file: seq<byte>, pos: nat, pieces: seq<Piece>, tail: seq<byte>, best: int)
    requires WellFormed(pieces)
    requires pos <= |file| && file[pos..] == Stream(pieces, tail) && Clean(file, pos, pieces)
    ensures Scan(file, pos, best) == Largest(pieces, best)
    decreases |pieces|
  {
    if pieces == [] {
      SkipSilent(file, pos, |file|, best);
    } else {
      var start := pos + |pieces[0].junk|;
      StreamStep(file, pos, pieces, tail);
      SkipSilent(file, pos, start, best);
      OnePage(file, start, pieces[0].page, best);
      ScanStream(file, start + |pieces[0].page|, pieces[1..], tail, Max(best, GranuleAt(pieces[0].page, 0)));
    }
  }

  /** On any concatenation of well-formed pages, with any bytes before, between and after them
      that start no capture pattern, the scan finds the largest granule position (or 0, if all
      are negative). */
  lemma ScanFindsLargest(pieces: seq<Piece>, tail: seq<byte>)
    requires WellFormed(pieces)
    requires Clean(Stream(pieces, tail), 0, pieces)
    ensures Scan(Stream(pieces, tail), 0, 0) == Largest(pieces, 0)
  {
    var file := Stream(pieces, tail);
    assert file[0..] == file;
    ScanStream(file, 0, pieces, tail, 0);
  }

  /** `Largest` from 0 is the greatest of 0 and the granule positions. */
  lemma {:induction false} LargestIsMaximum(pieces: seq<Piece>, best: int)
    requires WellFormed(pieces)
    ensures Largest(pieces, best) >= best
    ensures forall i | 0 <= i < |pieces| :: Largest(pieces, best) >= GranuleAt(pieces[i].page, 0)
    ensures || Largest(pieces, best) == best
            || exists i | 0 <= i < |pieces| :: Largest(pieces, best) == GranuleAt(pieces[i].page, 0)
    decreases |pieces|
  {
    if pieces != [] {
      var best' := Max(best, GranuleAt(pieces[0].page, 0));
      LargestIsMaximum(pieces[1..], best');
      forall i | 0 <= i < |pieces| ensures Largest(pieces, best) >= GranuleAt(pieces[i].page, 0) {
        if i > 0 { assert pieces[1..][i - 1] == pieces[i]; }
      }
    }
  }
}

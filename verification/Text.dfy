/** What the other modules share: bytes, options, and the string operations the gateway's list
    fields rest on - trimming, splitting and joining on a one-character separator, and
    order-preserving filtering. */
module Text {

  type byte = b: int | 0 <= b < 256

  datatype Option<T> = None | Some(value: T)

  /** Unicode White_Space, as strings.TrimSpace uses it. */
  predicate IsSpace(c: char) {
    || '\t' <= c <= '\r' || c == ' ' || c == '\U{0085}' || c == '\U{00A0}' || c == '\U{1680}'
    || '\U{2000}' <= c <= '\U{200a}' || c == '\U{2028}' || c == '\U{2029}' || c == '\U{202f}'
    || c == '\U{205f}' || c == '\U{3000}'
  }

  function TrimLeft(s: string, cut: char -> bool): string {
    if s != [] && cut(s[0]) then TrimLeft(s[1..], cut) else s
  }

  function TrimRight(s: string, cut: char -> bool): string {
    if s != [] && cut(s[|s| - 1]) then TrimRight(s[..|s| - 1], cut) else s
  }

  function Trim(s: string, cut: char -> bool): string {
    TrimRight(TrimLeft(s, cut), cut)
  }

  function TrimSpace(s: string): string { Trim(s, IsSpace) }

  predicate Bare(s: string, cut: char -> bool) {
    s == [] || (!cut(s[0]) && !cut(s[|s| - 1]))
  }

  lemma {:induction false} TrimRightBare(s: string, cut: char -> bool)
    requires s == [] || !cut(s[0])
    ensures Bare(TrimRight(s, cut), cut) && TrimRight(s, cut) <= s
    decreases |s|
  {
    if s != [] && cut(s[|s| - 1]) {
      TrimRightBare(s[..|s| - 1], cut);
    }
  }

  lemma {:induction false} TrimLeftBare(s: string, cut: char -> bool)
    ensures var t := TrimLeft(s, cut); t == [] || !cut(t[0])
    decreases |s|
  {
    if s != [] && cut(s[0]) {
      TrimLeftBare(s[1..], cut);
    }
  }

  /** Trimming leaves nothing to trim and changes nothing that has nothing to trim. */
  lemma TrimBare(s: string, cut: char -> bool)
    ensures Bare(Trim(s, cut), cut)
    ensures Bare(s, cut) ==> Trim(s, cut) == s
  {
    TrimLeftBare(s, cut);
    TrimRightBare(TrimLeft(s, cut), cut);
  }

  lemma {:induction false} TrimLeftIs(s: string, cut: char -> bool)
    ensures exists a | 0 <= a <= |s| :: TrimLeft(s, cut) == s[a..] && forall i | 0 <= i < a :: cut(s[i])
    decreases |s|
  {
    if s != [] && cut(s[0]) {
      TrimLeftIs(s[1..], cut);
      var a :| 0 <= a <= |s| - 1 && TrimLeft(s[1..], cut) == s[1..][a..] && forall i | 0 <= i < a :: cut(s[1..][i]);
      assert s[1..][a..] == s[a + 1..];
      forall i | 0 <= i < a + 1 ensures cut(s[i]) { if i > 0 { assert s[i] == s[1..][i - 1]; } }
    } else {
      assert s[0..] == s;
    }
  }

  lemma {:induction false} TrimRightIs(s: string, cut: char -> bool)
    ensures exists b | 0 <= b <= |s| :: TrimRight(s, cut) == s[..b] && forall i | b <= i < |s| :: cut(s[i])
    decreases |s|
  {
    if s != [] && cut(s[|s| - 1]) {
      var t := s[..|s| - 1];
      TrimRightIs(t, cut);
      var b :| 0 <= b <= |t| && TrimRight(t, cut) == t[..b] && forall i | b <= i < |t| :: cut(t[i]);
      assert t[..b] == s[..b];
      forall i | b <= i < |s| ensures cut(s[i]) { if i < |t| { assert s[i] == t[i]; } }
    } else {
      assert s[..|s|] == s;
    }
  }

  /** Trimming takes a stretch out of the string: what it leaves off is cut on both sides, and
      what it keeps begins and ends with characters that are not. */
  lemma TrimIs(s: string, cut: char -> bool)
    ensures Bare(Trim(s, cut), cut)
    ensures exists a, b | 0 <= a <= b <= |s| ::
              Trim(s, cut) == s[a..b] && forall i | 0 <= i < a || b <= i < |s| :: cut(s[i])
  {
    TrimBare(s, cut);
    TrimLeftIs(s, cut);
    var a :| 0 <= a <= |s| && TrimLeft(s, cut) == s[a..] && forall i | 0 <= i < a :: cut(s[i]);
    var t := s[a..];
    TrimRightIs(t, cut);
    var n :| 0 <= n <= |t| && TrimRight(t, cut) == t[..n] && forall i | n <= i < |t| :: cut(t[i]);
    var b := a + n;
    assert t[..n] == s[a..b];
    forall i | 0 <= i < a || b <= i < |s| ensures cut(s[i]) { if b <= i { assert s[i] == t[i - a]; } }
  }

  /** Below 128 the white space is the blank and the five control characters from tab on. */
  lemma AsciiSpace(c: char)
    requires c as int < 128
    ensures IsSpace(c) <==> c == ' ' || 9 <= c as int <= 13
  {
  }

  lemma {:induction false} TrimLeftKeepsOut(s: string, c: char)
    requires c !in s
    ensures c !in TrimLeft(s, IsSpace)
    decreases |s|
  {
    if s != [] && IsSpace(s[0]) { TrimLeftKeepsOut(s[1..], c); }
  }

  lemma {:induction false} TrimRightKeepsOut(s: string, c: char)
    requires c !in s
    ensures c !in TrimRight(s, IsSpace)
    decreases |s|
  {
    if s != [] && IsSpace(s[|s| - 1]) { TrimRightKeepsOut(s[..|s| - 1], c); }
  }

  lemma TrimKeepsOut(s: string, c: char)
    requires c !in s
    ensures c !in TrimSpace(s)
  {
    TrimLeftKeepsOut(s, c);
    TrimRightKeepsOut(TrimLeft(s, IsSpace), c);
  }

  /** The pieces of a string with one more character in front. */
  function Grow(c: char, parts: seq<string>, sep: char): seq<string>
    requires parts != []
  {
    if c == sep then [[]] + parts else [[c] + parts[0]] + parts[1..]
  }

  function Split(s: string, sep: char): (parts: seq<string>)
    ensures |parts| > 0
    ensures forall p | p in parts :: sep !in p
  {
    if s == [] then [[]] else Grow(s[0], Split(s[1..], sep), sep)
  }

  function Join(parts: seq<string>, sep: char): string {
    if |parts| == 0 then []
    else if |parts| == 1 then parts[0]
    else parts[0] + [sep] + Join(parts[1..], sep)
  }

  lemma GrowAppend(c: char, a: seq<string>, b: seq<string>, sep: char)
    requires a != []
    ensures Grow(c, a + b, sep) == Grow(c, a, sep) + b
  {
    assert (a + b)[1..] == a[1..] + b;
  }

  lemma {:induction false} SplitAround(a: string, b: string, sep: char)
    ensures Split(a + [sep] + b, sep) == Split(a, sep) + Split(b, sep)
    decreases |a|
  {
    var whole := a + [sep] + b;
    if a == [] {
      assert whole[1..] == b;
      assert Grow(sep, Split(b, sep), sep) == [[]] + Split(b, sep);
    } else {
      SplitAround(a[1..], b, sep);
      assert whole[0] == a[0] && whole[1..] == a[1..] + [sep] + b;
      GrowAppend(a[0], Split(a[1..], sep), Split(b, sep), sep);
    }
  }

  lemma {:induction false} SplitWhole(p: string, sep: char)
    requires sep !in p
    ensures Split(p, sep) == [p]
    decreases |p|
  {
    if p != [] {
      SplitWhole(p[1..], sep);
      assert p[0] in p && [p[0]] + p[1..] == p;
    }
  }

  /** Splitting undoes joining when no part holds the separator. */
  lemma {:induction false} SplitJoin(parts: seq<string>, sep: char)
    requires parts != [] && forall p | p in parts :: sep !in p
    ensures Split(Join(parts, sep), sep) == parts
    decreases |parts|
  {
    if |parts| == 1 {
      SplitWhole(parts[0], sep);
    } else {
      SplitJoin(parts[1..], sep);
      SplitWhole(parts[0], sep);
      SplitAround(parts[0], Join(parts[1..], sep), sep);
    }
  }

  lemma JoinGrow(c: char, parts: seq<string>, sep: char)
    requires parts != []
    ensures Join(Grow(c, parts, sep), sep) == [c] + Join(parts, sep)
  {
    var grown := Grow(c, parts, sep);
    if c == sep {
      assert grown[1..] == parts;
    } else {
      assert grown[1..] == parts[1..];
      if |parts| > 1 { assert [c] + parts[0] + [sep] + Join(parts[1..], sep) == [c] + Join(parts, sep); }
    }
  }

  /** Joining undoes splitting, and no part holds the separator. */
  lemma {:induction false} JoinSplit(s: string, sep: char)
    ensures Join(Split(s, sep), sep) == s && forall p | p in Split(s, sep) :: sep !in p
    decreases |s|
  {
    if s != [] {
      JoinSplit(s[1..], sep);
      JoinGrow(s[0], Split(s[1..], sep), sep);
      assert [s[0]] + s[1..] == s;
    }
  }

  lemma {:induction false} JoinAppend(a: seq<string>, b: seq<string>, sep: char)
    requires a != [] && b != []
    ensures Join(a + b, sep) == Join(a, sep) + [sep] + Join(b, sep)
    decreases |a|
  {
    assert (a + b)[1..] == a[1..] + b;
    if |a| > 1 {
      JoinAppend(a[1..], b, sep);
    } else {
      assert a[1..] + b == b;
    }
  }

  lemma {:induction false} JoinLast(parts: seq<string>, sep: char)
    requires parts != [] && parts[|parts| - 1] != []
    ensures var s := Join(parts, sep); s != [] && s[|s| - 1] == parts[|parts| - 1][|parts[|parts| - 1]| - 1]
    decreases |parts|
  {
    if |parts| > 1 { JoinLast(parts[1..], sep); }
  }

  /** Joining separator-free parts, the first and last not empty, leaves no separator at either
      end. */
  lemma JoinBare(parts: seq<string>, sep: char)
    requires parts != [] && parts[0] != [] && parts[|parts| - 1] != []
    requires forall p | p in parts :: sep !in p
    ensures var s := Join(parts, sep); s != [] && s[0] != sep && s[|s| - 1] != sep
  {
    var first, last := parts[0], parts[|parts| - 1];
    JoinLast(parts, sep);
    assert first in parts && first[0] in first;
    assert last in parts && last[|last| - 1] in last;
  }

  /** The pieces of a string that does not end in the separator: the last is not empty. */
  lemma {:induction false} SplitLast(s: string, sep: char)
    requires s != [] && s[|s| - 1] != sep
    ensures Split(s, sep)[|Split(s, sep)| - 1] != []
    decreases |s|
  {
    if |s| > 1 { SplitLast(s[1..], sep); }
  }

  // ----- Order-preserving filters -----

  function Sieve<T>(xs: seq<T>, keep: T -> bool): seq<T> {
    if xs == [] then []
    else
      var ys := Sieve(xs[..|xs| - 1], keep);
      if keep(xs[|xs| - 1]) then ys + [xs[|xs| - 1]] else ys
  }

  lemma {:induction false} SieveMembers<T(!new)>(xs: seq<T>, keep: T -> bool)
    ensures |Sieve(xs, keep)| <= |xs|
    ensures forall y :: y in Sieve(xs, keep) <==> y in xs && keep(y)
    decreases |xs|
  {
    if xs != [] {
      SieveMembers(xs[..|xs| - 1], keep);
      assert xs == xs[..|xs| - 1] + [xs[|xs| - 1]];
    }
  }

  /** The elements that satisfy keep, in order. */
  function Filter<T(!new)>(xs: seq<T>, keep: T -> bool): (ys: seq<T>)
    ensures forall y :: y in ys <==> y in xs && keep(y)
    ensures |ys| <= |xs|
  {
    SieveMembers(xs, keep);
    Sieve(xs, keep)
  }

  lemma {:induction false} SieveAppend<T>(xs: seq<T>, ys: seq<T>, keep: T -> bool)
    ensures Sieve(xs + ys, keep) == Sieve(xs, keep) + Sieve(ys, keep)
    decreases |ys|
  {
    if ys == [] {
      assert xs + ys == xs;
    } else {
      SieveAppend(xs, ys[..|ys| - 1], keep);
      assert (xs + ys)[..|xs + ys| - 1] == xs + ys[..|ys| - 1];
    }
  }

  lemma FilterAppend<T(!new)>(xs: seq<T>, ys: seq<T>, keep: T -> bool)
    ensures Filter(xs + ys, keep) == Filter(xs, keep) + Filter(ys, keep)
  {
    SieveAppend(xs, ys, keep);
  }

  lemma {:induction false} FilterAgree<T(!new)>(xs: seq<T>, p: T -> bool, q: T -> bool)
    requires forall x | x in xs :: p(x) == q(x)
    ensures Filter(xs, p) == Filter(xs, q)
    decreases |xs|
  {
    if xs != [] {
      FilterAgree(xs[..|xs| - 1], p, q);
    }
  }

  lemma {:induction false} FilterTwice<T(!new)>(xs: seq<T>, p: T -> bool, q: T -> bool, both: T -> bool)
    requires forall x | x in xs :: both(x) == (p(x) && q(x))
    ensures Filter(Filter(xs, p), q) == Filter(xs, both)
    decreases |xs|
  {
    if xs != [] {
      FilterTwice(xs[..|xs| - 1], p, q, both);
      var ys := Filter(xs[..|xs| - 1], p);
      FilterAppend(ys, [xs[|xs| - 1]], q);
      assert [xs[|xs| - 1]][..0] == [];
    }
  }

  lemma {:induction false} FilterAll<T(!new)>(xs: seq<T>, keep: T -> bool)
    requires forall x | x in xs :: keep(x)
    ensures Filter(xs, keep) == xs
    decreases |xs|
  {
    if xs != [] {
      FilterAll(xs[..|xs| - 1], keep);
    }
  }

  predicate Distinct<T(==)>(xs: seq<T>) {
    forall i, j | 0 <= i < j < |xs| :: xs[i] != xs[j]
  }

  lemma {:induction false} FilterDistinct<T(!new)>(xs: seq<T>, keep: T -> bool)
    requires Distinct(xs)
    ensures Distinct(Filter(xs, keep))
    decreases |xs|
  {
    if xs != [] {
      FilterDistinct(xs[..|xs| - 1], keep);
    }
  }

  // ----- First occurrences -----

  /** Trimmed, x occurs in the list, and before any y. */
  ghost predicate OccursBefore(names: seq<string>, x: string, y: string) {
    exists a | 0 <= a < |names| :: TrimSpace(names[a]) == x && forall b | 0 <= b <= a :: TrimSpace(names[b]) != y
  }

  ghost predicate Occurs(names: seq<string>, x: string) { exists a | 0 <= a < |names| :: TrimSpace(names[a]) == x }

  /** r holds exactly the trimmed names that are neither empty nor known, once each, in the
      order in which they first occur. */
  ghost predicate FirstOccurrences(names: seq<string>, known: set<string>, r: seq<string>) {
    && Distinct(r)
    && (forall x :: x in r <==> x != [] && x !in known && Occurs(names, x))
    && (forall i, j | 0 <= i < j < |r| :: OccursBefore(names, r[i], r[j]))
  }

  lemma OccursPush(names: seq<string>, n: string, x: string)
    ensures Occurs(names + [n], x) <==> Occurs(names, x) || x == TrimSpace(n)
  {
    var names' := names + [n];
    if Occurs(names, x) {
      var a :| 0 <= a < |names| && TrimSpace(names[a]) == x;
      assert TrimSpace(names'[a]) == x;
    }
    assert names'[|names|] == n;
  }

  lemma OccursBeforePush(names: seq<string>, n: string, x: string, y: string)
    requires OccursBefore(names, x, y) || (Occurs(names, x) && !Occurs(names, y))
    ensures OccursBefore(names + [n], x, y)
  {
    var names' := names + [n];
    var a :| 0 <= a < |names| && TrimSpace(names[a]) == x
          && (!Occurs(names, y) || forall b | 0 <= b <= a :: TrimSpace(names[b]) != y);
    assert TrimSpace(names'[a]) == x;
    forall b | 0 <= b <= a ensures TrimSpace(names'[b]) != y {
      assert names'[b] == names[b];
      assert TrimSpace(names[b]) == y ==> Occurs(names, y);
    }
  }

  lemma FirstOccurrencesPush(names: seq<string>, known: set<string>, r: seq<string>, n: string)
    requires FirstOccurrences(names, known, r)
    ensures var t := TrimSpace(n);
      FirstOccurrences(names + [n], known, if t == [] || t in known || t in r then r else r + [t])
  {
    var t, names' := TrimSpace(n), names + [n];
    var r' := if t == [] || t in known || t in r then r else r + [t];
    forall x ensures x in r' <==> x != [] && x !in known && Occurs(names', x) { OccursPush(names, n, x); }
    forall i, j | 0 <= i < j < |r'| ensures OccursBefore(names', r'[i], r'[j]) {
      assert r[i] in r;
      OccursBeforePush(names, n, r[i], r'[j]);
    }
  }
}

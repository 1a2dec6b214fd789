/**
  The kernel debugger's trace buffer: a ring of entries, newest first under an index, with an optional
  filter that hides entries.  The ring size is a power of two in the source, where masking with the size
  minus one takes the remainder; event numbers do not wrap.
 */
module TraceBuffer {
  import opened Wrappers
  import Multiples

  datatype Entry = Entry(number: nat, hidden: bool)

  // ----- positions in the ring

  /** The remainder, by repeated subtraction. */
  function Mod(x: nat, m: nat): (r: nat)
    requires m > 0
    ensures r < m
    decreases x
  {
    if x < m then x else Mod(x - m, m)
  }

  lemma {:induction false} ModIsRemainder(x: nat, m: nat)
    requires m > 0
    ensures Mod(x, m) == x % m
    decreases x
  {
    if x >= m {
      ModIsRemainder(x - m, m);
      Multiples.SubtractOnce(x, m);
    } else {
      Multiples.RemainderOfMultiple(0, m, x);
    }
  }

  function Filled(max: nat, number: nat): nat {
    if number > max then max else number
  }

  /** The position of the entry that is `i` events old; age `-1` is the place of the next event. */
  function Pos(max: nat, number: nat, i: int): nat
    requires max > 0 && -1 <= i < number
  {
    Mod(number - 1 - i, max)
  }

  /** The age of the entry at a position. */
  function Age(max: nat, number: nat, pos: nat): nat
    requires max > 0 && pos < number
  {
    Mod(number - pos - 1, max)
  }

  lemma ModOnce(x: nat, m: nat)
    requires 0 < m && x < 2 * m
    ensures Mod(x, m) == if x < m then x else x - m
  {
    assert x >= m ==> Mod(x, m) == Mod(x - m, m);
  }

  lemma {:induction false} ModNext(x: nat, m: nat)
    requires m > 0
    ensures Mod(x + 1, m) == if Mod(x, m) + 1 == m then 0 else Mod(x, m) + 1
    decreases x
  {
    if x >= m { ModNext(x - m, m); }
  }

  lemma {:induction false} ModDiffers(x: nat, d: nat, m: nat)
    requires 0 < d < m
    ensures Mod(x + d, m) != Mod(x, m)
    decreases x
  {
    if x >= m { ModDiffers(x - m, d, m); }
  }

  /** Positions and ages are inverse to each other, for every fill level and wrap position. */
  lemma {:induction false} AgeOfPos(max: nat, number: nat, i: nat)
    requires max > 0 && i < Filled(max, number)
    ensures Pos(max, number, i) < Filled(max, number) && Age(max, number, Pos(max, number, i)) == i
    decreases number
  {
    if number >= 2 * max {
      AgeOfPos(max, number - max, i);
    } else {
      ModOnce(number - 1 - i, max);
      ModOnce(number - Pos(max, number, i) - 1, max);
    }
  }

  lemma {:induction false} PosOfAge(max: nat, number: nat, pos: nat)
    requires max > 0 && pos < Filled(max, number)
    ensures Age(max, number, pos) < Filled(max, number) && Pos(max, number, Age(max, number, pos)) == pos
    decreases number
  {
    if number >= 2 * max {
      PosOfAge(max, number - max, pos);
    } else {
      ModOnce(number - pos - 1, max);
      ModOnce(number - 1 - Age(max, number, pos), max);
    }
  }

  /** One position on, or around the end, is the next newer entry, and the next event's place after the newest. */
  lemma {:induction false} Newer(max: nat, number: nat, i: nat)
    requires 0 < max && i < Filled(max, number)
    ensures var p := Pos(max, number, i) + 1;
            Pos(max, number, i - 1) == if p >= max then p - max else p
    ensures Pos(max, number, i - 1) == Mod(number, max) <==> i == 0
  {
    var x: nat := number - 1 - i;
    ModNext(x, max);
    assert x + 1 == number - 1 - (i - 1);
    if i > 0 {
      ModDiffers(x + 1, i, max);
      assert x + 1 + i == number;
    }
  }

  // ----- what the buffer shows

  /** The positions of the `n` newest entries, newest first. */
  function Newest(max: nat, number: nat, n: nat): (s: seq<nat>)
    requires max > 0 && n <= number
    ensures |s| == n && forall i :: 0 <= i < n ==> s[i] == Pos(max, number, i)
  {
    seq(n, i requires 0 <= i < n => Pos(max, number, i))
  }

  predicate Shown(buf: seq<Entry>, filter: bool, p: nat) {
    p < |buf| && !(filter && buf[p].hidden)
  }

  /** Without the hidden ones, if there is a filter. */
  function Visible(buf: seq<Entry>, filter: bool, s: seq<nat>): (v: seq<nat>)
    ensures |v| <= |s|
  {
    if s == [] then []
    else if Shown(buf, filter, s[0]) then [s[0]] + Visible(buf, filter, s[1..])
    else Visible(buf, filter, s[1..])
  }

  lemma {:induction false} VisibleAppend(buf: seq<Entry>, filter: bool, s: seq<nat>, t: seq<nat>)
    ensures Visible(buf, filter, s + t) == Visible(buf, filter, s) + Visible(buf, filter, t)
  {
    if s == [] {
      assert s + t == t;
    } else {
      assert (s + t)[1..] == s[1..] + t;
      VisibleAppend(buf, filter, s[1..], t);
    }
  }

  lemma {:induction false} NothingHidden(buf: seq<Entry>, s: seq<nat>)
    requires forall i :: 0 <= i < |s| ==> s[i] < |buf|
    ensures Visible(buf, false, s) == s
  {
    if s != [] { NothingHidden(buf, s[1..]); }
  }

  lemma {:induction false} VisibleElements(buf: seq<Entry>, filter: bool, s: seq<nat>, p: nat)
    ensures p in Visible(buf, filter, s) <==> p in s && Shown(buf, filter, p)
  {
    if s != [] { VisibleElements(buf, filter, s[1..], p); }
  }

  predicate Distinct(s: seq<nat>) {
    forall i, j :: 0 <= i < j < |s| ==> s[i] != s[j]
  }

  lemma {:induction false} VisibleDistinct(buf: seq<Entry>, filter: bool, s: seq<nat>)
    requires Distinct(s)
    ensures Distinct(Visible(buf, filter, s))
  {
    if s != [] {
      VisibleDistinct(buf, filter, s[1..]);
      VisibleElements(buf, filter, s[1..], s[0]);
    }
  }

  /** The entries that an index counts, newest first. */
  function View(buf: seq<Entry>, number: nat, filter: bool): seq<nat>
    requires |buf| > 0
  {
    Visible(buf, filter, Newest(|buf|, number, Filled(|buf|, number)))
  }

  /** Newer events come first. */
  predicate NewerFirst(max: nat, number: nat, s: seq<nat>)
    requires max > 0
  {
    && (forall i :: 0 <= i < |s| ==> s[i] < number)
    && forall i, j :: 0 <= i < j < |s| ==> Age(max, number, s[i]) < Age(max, number, s[j])
  }

  lemma {:induction false} VisibleNewerFirst(buf: seq<Entry>, number: nat, filter: bool, s: seq<nat>)
    requires |buf| > 0 && NewerFirst(|buf|, number, s)
    ensures NewerFirst(|buf|, number, Visible(buf, filter, s))
  {
    if s != [] {
      var v := Visible(buf, filter, s[1..]);
      VisibleNewerFirst(buf, number, filter, s[1..]);
      forall i | 0 <= i < |v| ensures Age(|buf|, number, s[0]) < Age(|buf|, number, v[i]) {
        VisibleElements(buf, filter, s[1..], v[i]);
        assert v[i] in v;
      }
    }
  }

  /** The view lists the shown entries from the newest to the oldest. */
  lemma ViewIsNewestFirst(buf: seq<Entry>, number: nat, filter: bool)
    requires |buf| > 0
    ensures NewerFirst(|buf|, number, View(buf, number, filter))
  {
    var all := Newest(|buf|, number, Filled(|buf|, number));
    forall i | 0 <= i < |all| ensures all[i] < number && Age(|buf|, number, all[i]) == i {
      AgeOfPos(|buf|, number, i);
    }
    VisibleNewerFirst(buf, number, filter, all);
  }

  lemma NewestDistinct(max: nat, number: nat)
    requires max > 0
    ensures Distinct(Newest(max, number, Filled(max, number)))
  {
    var s := Newest(max, number, Filled(max, number));
    forall i, j | 0 <= i < j < |s| ensures s[i] != s[j] {
      AgeOfPos(max, number, i);
      AgeOfPos(max, number, j);
    }
  }

  /** Every filled position that is not hidden is in the view, once, and nothing else is. */
  lemma ViewIsExact(buf: seq<Entry>, number: nat, filter: bool, p: nat)
    requires |buf| > 0
    ensures Distinct(View(buf, number, filter))
    ensures p in View(buf, number, filter) <==> p < Filled(|buf|, number) && Shown(buf, filter, p)
  {
    var s := Newest(|buf|, number, Filled(|buf|, number));
    NewestDistinct(|buf|, number);
    VisibleDistinct(buf, filter, s);
    VisibleElements(buf, filter, s, p);
    if p < Filled(|buf|, number) {
      PosOfAge(|buf|, number, p);
      assert s[Age(|buf|, number, p)] == p;
    }
    if p in s {
      var i :| 0 <= i < |s| && s[i] == p;
      AgeOfPos(|buf|, number, i);
    }
  }

  // ----- counting positions

  /** How many of the first `n` positions are shown. */
  function Count(buf: seq<Entry>, filter: bool, n: nat): nat {
    if n == 0 then 0 else Count(buf, filter, n - 1) + if Shown(buf, filter, n - 1) then 1 else 0
  }

  lemma NoElements(v: seq<nat>)
    ensures (forall p: nat :: p !in v) ==> v == []
  {
    if v != [] { assert v[0] in v; }
  }

  /** A sequence without repetitions that lists exactly the shown positions below `n` is as long as their number. */
  lemma {:induction false} CountIsLength(buf: seq<Entry>, filter: bool, n: nat, v: seq<nat>)
    requires Distinct(v) && forall p: nat :: p in v <==> p < n && Shown(buf, filter, p)
    ensures |v| == Count(buf, filter, n)
  {
    if n == 0 {
      NoElements(v);
    } else if Shown(buf, filter, n - 1) {
      var i :| 0 <= i < |v| && v[i] == n - 1;
      var w := v[..i] + v[i + 1..];
      assert forall p :: p in w <==> p in v && p != n - 1;
      CountIsLength(buf, filter, n - 1, w);
    } else {
      CountIsLength(buf, filter, n - 1, v);
    }
  }

  /** The entry at `i`, if shown, comes after those shown before it. */
  lemma Prefix(buf: seq<Entry>, filter: bool, s: seq<nat>, i: nat)
    requires i <= |s|
    ensures Visible(buf, filter, s[..i]) <= Visible(buf, filter, s)
    ensures i == |s| ==> s[..i] == s
    ensures i < |s| ==>
              Visible(buf, filter, s[..i + 1]) ==
              Visible(buf, filter, s[..i]) + if Shown(buf, filter, s[i]) then [s[i]] else []
    ensures i < |s| && Shown(buf, filter, s[i]) ==>
              var k := |Visible(buf, filter, s[..i])|;
              k < |Visible(buf, filter, s)| && Visible(buf, filter, s)[k] == s[i]
  {
    VisibleAppend(buf, filter, s[..i], s[i..]);
    assert s[..i] + s[i..] == s;
    if i < |s| {
      VisibleAppend(buf, filter, s[..i], [s[i]]);
      assert s[..i + 1] == s[..i] + [s[i]];
    }
  }

  /** How many entries that are `from` to `end - 1` events old are shown under the filter. */
  function Between(buf: seq<Entry>, number: nat, from: nat, end: nat): nat
    requires |buf| > 0 && from <= end <= number
    decreases end - from
  {
    if from == end then 0
    else Between(buf, number, from + 1, end) + if Shown(buf, true, Pos(|buf|, number, from)) then 1 else 0
  }

  lemma {:induction false} BetweenIsVisible(buf: seq<Entry>, number: nat, from: nat, end: nat)
    requires |buf| > 0 && from <= end <= number
    ensures Between(buf, number, from, end) == |Visible(buf, true, Newest(|buf|, number, end)[from..])|
    decreases end - from
  {
    if from < end {
      BetweenIsVisible(buf, number, from + 1, end);
      var s := Newest(|buf|, number, end);
      assert s[from..][1..] == s[from + 1..];
    }
  }

  /** What an index means: it finds a shown entry, and for a hidden one it counts the shown newer ones, less one. */
  predicate IndexOf(buf: seq<Entry>, number: nat, filter: bool, pos: nat, index: int)
    requires |buf| > 0 && pos < Filled(|buf|, number)
  {
    var view := View(buf, number, filter);
    if Shown(buf, filter, pos) then 0 <= index < |view| && view[index] == pos
    else index + 1 == |Visible(buf, filter, Newest(|buf|, number, Age(|buf|, number, pos)))|
  }

  lemma {:induction false} CountedIndex(buf: seq<Entry>, number: nat, pos: nat)
    requires |buf| > 0 && pos < Filled(|buf|, number)
    ensures IndexOf(buf, number, true, pos, Between(buf, number, 0, Age(|buf|, number, pos) + 1) - 1)
  {
    var (age, all) := (Age(|buf|, number, pos), Newest(|buf|, number, Filled(|buf|, number)));
    PosOfAge(|buf|, number, pos);
    Prefix(buf, true, all, age);
    BetweenIsVisible(buf, number, 0, age + 1);
    assert Newest(|buf|, number, age) == all[..age];
    assert Newest(|buf|, number, age + 1)[0..] == all[..age + 1];
  }

  lemma {:induction false} UnfilteredIndex(buf: seq<Entry>, number: nat, pos: nat)
    requires |buf| > 0 && pos < Filled(|buf|, number)
    ensures IndexOf(buf, number, false, pos, Age(|buf|, number, pos))
  {
    NothingHidden(buf, Newest(|buf|, number, Filled(|buf|, number)));
    PosOfAge(|buf|, number, pos);
  }

  /** An index of a shown entry is the only one that finds it. */
  lemma IndexInvertsLookup(buf: seq<Entry>, number: nat, filter: bool, i: nat, j: int)
    requires |buf| > 0 && i < |View(buf, number, filter)|
    ensures View(buf, number, filter)[i] < Filled(|buf|, number)
    ensures IndexOf(buf, number, filter, View(buf, number, filter)[i], j) <==> j == i
  {
    var p := View(buf, number, filter)[i];
    ViewIsExact(buf, number, filter, p);
    assert p in View(buf, number, filter);
  }

  // ----- searching for an event number

  /** The age of the newest entry, not newer than `i`, with the event number. */
  function Match(buf: seq<Entry>, number: nat, nr: nat, i: nat): (r: Option<nat>)
    requires |buf| > 0
    ensures r.Some? ==> i <= r.value < Filled(|buf|, number) && buf[Pos(|buf|, number, r.value)].number == nr
    ensures forall j :: i <= j < (if r.Some? then r.value else Filled(|buf|, number)) ==>
              buf[Pos(|buf|, number, j)].number != nr
    decreases Filled(|buf|, number) - i
  {
    if i >= Filled(|buf|, number) then None
    else if buf[Pos(|buf|, number, i)].number == nr then Some(i)
    else Match(buf, number, nr, i + 1)
  }

  /** `p` holds the newest event with the number. */
  predicate IsNewest(buf: seq<Entry>, number: nat, nr: int, p: nat)
    requires |buf| > 0
  {
    && p < Filled(|buf|, number) && buf[p].number == nr
    && forall q :: 0 <= q < Filled(|buf|, number) && Age(|buf|, number, q) < Age(|buf|, number, p) ==>
                     buf[q].number != nr
  }

  /** The match is the newest event with the number, if there is one. */
  lemma MatchIsNewest(buf: seq<Entry>, number: nat, nr: nat)
    requires |buf| > 0
    ensures var m := Match(buf, number, nr, 0);
            if m.Some? then IsNewest(buf, number, nr, Pos(|buf|, number, m.value))
            else forall q :: 0 <= q < Filled(|buf|, number) ==> buf[q].number != nr
  {
    var m := Match(buf, number, nr, 0);
    if m.Some? { AgeOfPos(|buf|, number, m.value); }
    forall q | 0 <= q < Filled(|buf|, number) && (m.Some? ==> Age(|buf|, number, q) < m.value)
      ensures buf[q].number != nr
    {
      PosOfAge(|buf|, number, q);
    }
  }

  predicate DistinctNumbers(buf: seq<Entry>, n: nat)
    requires n <= |buf|
  {
    forall p, q :: 0 <= p < q < n ==> buf[p].number != buf[q].number
  }

  /** With distinct event numbers the search for an entry's number finds that entry. */
  lemma {:induction false} MatchFinds(buf: seq<Entry>, number: nat, pos: nat, i: nat)
    requires |buf| > 0 && pos < Filled(|buf|, number) && DistinctNumbers(buf, Filled(|buf|, number))
    requires i <= Age(|buf|, number, pos)
    ensures Match(buf, number, buf[pos].number, i) == Some(Age(|buf|, number, pos))
    decreases Filled(|buf|, number) - i
  {
    PosOfAge(|buf|, number, pos);
    AgeOfPos(|buf|, number, i);
    if i < Age(|buf|, number, pos) {
      MatchFinds(buf, number, pos, i + 1);
    }
  }

  /** The shown entries newer than a shown one give its index. */
  lemma {:induction false} ShownBefore(buf: seq<Entry>, number: nat, i: nat)
    requires |buf| > 0 && i < Filled(|buf|, number)
    ensures Pos(|buf|, number, i) < Filled(|buf|, number)
    ensures var (p, newer) := (Pos(|buf|, number, i), |Visible(buf, true, Newest(|buf|, number, i))|);
            && |Visible(buf, true, Newest(|buf|, number, i + 1))| == newer + (if Shown(buf, true, p) then 1 else 0)
            && (Shown(buf, true, p) ==> IndexOf(buf, number, true, p, newer))
  {
    var all := Newest(|buf|, number, Filled(|buf|, number));
    AgeOfPos(|buf|, number, i);
    Prefix(buf, true, all, i);
    assert Newest(|buf|, number, i) == all[..i];
    assert Newest(|buf|, number, i + 1) == all[..i + 1];
  }

  /** What `search_to_idx` returns: -1 if there is no such event, -2 if it is hidden, else its index. */
  predicate FoundAt(buf: seq<Entry>, number: nat, filter: bool, nr: int, index: int)
    requires |buf| > 0
  {
    if nr < 0 || Match(buf, number, nr, 0) == None then index == -1
    else
      var i := Match(buf, number, nr, 0).value;
      && i < Filled(|buf|, number)
      && var p := Pos(|buf|, number, i);
         && p < Filled(|buf|, number)
         && if Shown(buf, filter, p) then IndexOf(buf, number, filter, p, index) else index == -2
  }

  /** Looking up an index and searching for the number found there gives the index back. */
  lemma SearchInvertsLookup(buf: seq<Entry>, number: nat, filter: bool, i: nat, j: int)
    requires |buf| > 0 && i < |View(buf, number, filter)| && DistinctNumbers(buf, Filled(|buf|, number))
    ensures View(buf, number, filter)[i] < |buf|
    ensures FoundAt(buf, number, filter, buf[View(buf, number, filter)[i]].number, j) <==> j == i
  {
    var p := View(buf, number, filter)[i];
    ViewIsExact(buf, number, filter, p);
    assert p in View(buf, number, filter);
    PosOfAge(|buf|, number, p);
    MatchFinds(buf, number, p, 0);
    IndexInvertsLookup(buf, number, filter, i, j);
  }

  // ----- recording events

  /** An entry that is `i` events old has the number of its event, or 1000 more until it is committed. */
  predicate Numbered(buf: seq<Entry>, number: nat, pending: set<nat>)
    requires |buf| > 0
  {
    && (forall p :: p in pending ==> p < Filled(|buf|, number))
    && forall i :: 0 <= i < Filled(|buf|, number) ==>
         var p := Pos(|buf|, number, i);
         buf[p].number == number - 1 - i + if p in pending then 1000 else 0
  }

  lemma CommittedDistinct(buf: seq<Entry>, number: nat)
    requires |buf| > 0 && Numbered(buf, number, {})
    ensures DistinctNumbers(buf, Filled(|buf|, number))
  {
    forall p, q | 0 <= p < q < Filled(|buf|, number) ensures buf[p].number != buf[q].number {
      PosOfAge(|buf|, number, p);
      PosOfAge(|buf|, number, q);
    }
  }

  /** With all entries committed, searching for the number found under an index gives the index back. */
  lemma CommittedSearchInvertsLookup(buf: seq<Entry>, number: nat, filter: bool, i: nat, j: int)
    requires |buf| > 0 && i < |View(buf, number, filter)| && Numbered(buf, number, {})
    ensures View(buf, number, filter)[i] < |buf|
    ensures FoundAt(buf, number, filter, buf[View(buf, number, filter)[i]].number, j) <==> j == i
  {
    CommittedDistinct(buf, number);
    SearchInvertsLookup(buf, number, filter, i, j);
  }

  /** How many entries are kept when a new one comes. */
  function Kept(max: nat, number: nat): nat
    requires max > 0
  {
    if number < max then number else max - 1
  }

  /** A new entry becomes the newest; the others grow older by one, and the oldest goes if the ring was full. */
  lemma {:induction false} NewestAfter(max: nat, number: nat)
    requires max > 0
    ensures Newest(max, number + 1, Filled(max, number + 1)) ==
            [Mod(number, max)] + Newest(max, number, Kept(max, number))
  {
    var s := [Mod(number, max)] + Newest(max, number, Kept(max, number));
    assert forall i :: 0 <= i < |s| ==> s[i] == Pos(max, number + 1, i);
  }

  /** None of the kept entries is where the new one goes. */
  lemma {:induction false} KeptElsewhere(max: nat, number: nat, i: nat)
    requires max > 0 && i < Kept(max, number)
    ensures Pos(max, number, i) != Mod(number, max)
  {
    var x: nat := number - 1 - i;
    ModDiffers(x, i + 1, max);
    assert x + (i + 1) == number;
  }

  lemma {:induction false} VisibleSame(buf: seq<Entry>, buf': seq<Entry>, filter: bool, s: seq<nat>)
    requires forall i :: 0 <= i < |s| ==> Shown(buf, filter, s[i]) == Shown(buf', filter, s[i])
    ensures Visible(buf, filter, s) == Visible(buf', filter, s)
  {
    if s != [] { VisibleSame(buf, buf', filter, s[1..]); }
  }

  /** What is shown after an entry has been put in the next place. */
  lemma {:induction false} ViewAfter(buf: seq<Entry>, number: nat, filter: bool, e: Entry)
    requires |buf| > 0
    ensures var p := Mod(number, |buf|);
            View(buf[p := e], number + 1, filter) ==
            Visible(buf[p := e], filter, [p]) +
            Visible(buf, filter, Newest(|buf|, number, Kept(|buf|, number)))
  {
    var (p, kept) := (Mod(number, |buf|), Newest(|buf|, number, Kept(|buf|, number)));
    var buf' := buf[p := e];
    NewestAfter(|buf|, number);
    VisibleAppend(buf', filter, [p], kept);
    forall i | 0 <= i < |kept| ensures Shown(buf, filter, kept[i]) == Shown(buf', filter, kept[i]) {
      KeptElsewhere(|buf|, number, i);
    }
    VisibleSame(buf, buf', filter, kept);
  }

  lemma {:induction false} NumberedAfter(buf: seq<Entry>, number: nat, pending: set<nat>, e: Entry)
    requires |buf| > 0 && Numbered(buf, number, pending) && e.number == number + 1000
    ensures var p := Mod(number, |buf|);
            Numbered(buf[p := e], number + 1, pending + {p})
  {
    var (p, next) := (Mod(number, |buf|), number + 1);
    var (buf', pending') := (buf[p := e], pending + {p});
    assert Pos(|buf|, next, 0) == p;
    AgeOfPos(|buf|, next, 0);
    forall i | 0 <= i < Filled(|buf|, next)
      ensures var q := Pos(|buf|, next, i);
              buf'[q].number == next - 1 - i + if q in pending' then 1000 else 0
    {
      if i > 0 {
        KeptElsewhere(|buf|, number, i - 1);
        assert Pos(|buf|, next, i) == Pos(|buf|, number, i - 1);
      }
    }
  }

  lemma {:induction false} NumberedCommit(buf: seq<Entry>, number: nat, pending: set<nat>, p: nat)
    requires |buf| > 0 && Numbered(buf, number, pending) && p in pending
    ensures p < |buf| && buf[p].number >= 1000
    ensures Numbered(buf[p := buf[p].(number := buf[p].number - 1000)], number, pending - {p})
  {
    PosOfAge(|buf|, number, p);
  }

  // ----- the debugger's view of it

  class Tbuf {
    const max: nat
    const buffer: array<Entry>
    var number: nat
    var filter: bool

    /** The entries that are not committed yet. */
    ghost var pending: set<nat>

    ghost predicate Valid()
      reads this
    {
      max > 0 && buffer.Length == max
    }

    /** The numbers are those of the events. */
    ghost predicate Recorded()
      requires Valid()
      reads this, buffer
    {
      Numbered(buffer[..], number, pending)
    }

    constructor (entries: nat)
      requires entries > 0
      ensures Valid() && fresh(buffer) && max == entries && !filter
      ensures Shows() == [] && Recorded() && pending == {}
    {
      max := entries;
      buffer := new Entry[entries](_ => Entry(0, false));
      number := 0;
      filter := false;
      pending := {};
    }

    /** The entries that `Lookup` finds under 0, 1, ... */
    ghost function Shows(): seq<nat>
      requires Valid()
      reads this, buffer
    {
      View(buffer[..], number, filter)
    }

    function UnfilteredEntries(): nat
      reads this
    {
      Filled(max, number)
    }

    function UnfilteredLookup(i: nat): Option<nat>
      requires Valid()
      reads this
    {
      if i >= UnfilteredEntries() then None else Some(Pos(max, number, i))
    }

    function UnfilteredIdx(pos: nat): nat
      requires Valid() && pos < UnfilteredEntries()
      reads this
    {
      Age(max, number, pos)
    }

    /** `entries`: counts positions, wherever the newest entry is. */
    method Entries() returns (n: nat)
      requires Valid()
      ensures n == |Shows()|
    {
      ghost var buf := buffer[..];
      forall p: nat ensures p in Shows() <==> p < UnfilteredEntries() && Shown(buf, filter, p) {
        ViewIsExact(buf, number, filter, p);
      }
      ViewIsExact(buf, number, filter, 0);
      CountIsLength(buf, filter, UnfilteredEntries(), Shows());
      if !filter {
        NothingHidden(buf, Newest(max, number, UnfilteredEntries()));
        return UnfilteredEntries();
      }
      n := 0;
      for i := 0 to UnfilteredEntries()
        invariant n == Count(buf, true, i)
      {
        if !buffer[i].hidden {
          n := n + 1;
        }
      }
    }

    method Lookup(index: nat) returns (e: Option<nat>)
      requires Valid()
      ensures e == if index < |Shows()| then Some(Shows()[index]) else None
    {
      ghost var buf, all := buffer[..], Newest(max, number, UnfilteredEntries());
      if !filter {
        NothingHidden(buf, all);
        return UnfilteredLookup(index);
      }
      var i, left := 0, index;
      while true
        invariant 0 <= i <= |all| && 0 <= left <= index
        invariant |Visible(buf, true, all[..i])| == index - left
        decreases |all| - i
      {
        e := UnfilteredLookup(i);
        Prefix(buf, true, all, i);
        if e == None {
          return None;
        }
        if !buffer[e.value].hidden {
          if left == 0 {
            return;
          }
          left := left - 1;
        }
        i := i + 1;
      }
    }

    /** `idx`: walks from the entry to the newest one. */
    method Idx(pos: nat) returns (index: int)
      requires Valid() && pos < UnfilteredEntries()
      ensures IndexOf(buffer[..], number, filter, pos, index)
    {
      if !filter {
        UnfilteredIndex(buffer[..], number, pos);
        return UnfilteredIdx(pos);
      }
      ghost var buf, age := buffer[..], UnfilteredIdx(pos);
      PosOfAge(max, number, pos);
      var next, p := Mod(number, max), pos;
      index := -1;
      ghost var i := age;
      while true
        invariant 0 <= i <= age && p == Pos(max, number, i)
        invariant index + 1 == Between(buf, number, i + 1, age + 1)
        decreases i
      {
        if !buffer[p].hidden {
          index := index + 1;
        }
        Newer(max, number, i);
        p := p + 1;
        if p >= max {
          p := p - max;
        }
        if p == next {
          break;
        }
        i := i - 1;
      }
      CountedIndex(buf, number, pos);
    }

    method Search(nr: int) returns (e: Option<nat>)
      requires Valid()
      ensures e == if nr < 0 || Match(buffer[..], number, nr, 0) == None then None
                   else Some(Pos(max, number, Match(buffer[..], number, nr, 0).value))
      ensures e.Some? ==> IsNewest(buffer[..], number, nr, e.value)
      ensures e == None ==> forall p :: 0 <= p < UnfilteredEntries() ==> buffer[p].number != nr
    {
      if nr >= 0 { MatchIsNewest(buffer[..], number, nr); }
      var i := 0;
      e := UnfilteredLookup(0);
      while e != None
        invariant e == UnfilteredLookup(i)
        invariant nr >= 0 ==> Match(buffer[..], number, nr, 0) == Match(buffer[..], number, nr, i)
        decreases max - i
      {
        if buffer[e.value].number == nr {
          return;
        }
        i := i + 1;
        e := UnfilteredLookup(i);
      }
    }

    /** Event numbers are not negative; -1 is the source's invalid number. */
    method SearchToIdx(nr: int) returns (index: int)
      requires Valid() && nr >= -1
      ensures FoundAt(buffer[..], number, filter, nr, index)
    {
      if nr == -1 {
        return -1;
      }
      ghost var buf := buffer[..];
      if !filter {
        var e := Search(nr);
        if e == None {
          return -1;
        }
        AgeOfPos(max, number, Match(buf, number, nr, 0).value);
        UnfilteredIndex(buf, number, e.value);
        return UnfilteredIdx(e.value);
      }
      var i, shown := 0, 0;
      var e := UnfilteredLookup(0);
      while e != None
        invariant e == UnfilteredLookup(i) && i <= UnfilteredEntries()
        invariant Match(buf, number, nr, 0) == Match(buf, number, nr, i)
        invariant shown == |Visible(buf, true, Newest(max, number, i))|
        decreases max - i
      {
        ShownBefore(buf, number, i);
        if buffer[e.value].number == nr {
          return if buffer[e.value].hidden then -2 else shown;
        }
        if !buffer[e.value].hidden {
          shown := shown + 1;
        }
        i := i + 1;
        e := UnfilteredLookup(i);
      }
      return -1;
    }

    /** The number is off by 1000 until the entry is committed. */
    method NewEntry() returns (pos: nat)
      requires Valid()
      modifies this`number, this`pending, buffer
      ensures Valid() && number == old(number) + 1 && pos == Mod(old(number), max)
      ensures pending == old(pending) + {pos} && (old(Recorded()) ==> Recorded())
      ensures Shows() == Visible(buffer[..], filter, [pos]) +
                         old(Visible(buffer[..], filter, Newest(max, number, Kept(max, number))))
      ensures buffer[..] == old(buffer[..])[pos := Entry(old(number) + 1000, old(buffer[pos].hidden))]
    {
      var n := number;
      number := n + 1;
      pos := Mod(n, max);
      ghost var buf, e := buffer[..], buffer[pos].(number := n + 1000);
      buffer[pos] := buffer[pos].(number := n + 1000);
      pending := pending + {pos};
      assert buffer[..] == buf[pos := e];
      ViewAfter(buf, n, filter, e);
      if old(Recorded()) {
        NumberedAfter(buf, n, old(pending), e);
      }
    }

    method CommitEntry(pos: nat)
      requires Valid() && pos < max && buffer[pos].number >= 1000
      modifies this`pending, buffer
      ensures Valid() && Shows() == old(Shows()) && pending == old(pending) - {pos}
      ensures old(Recorded()) && pos in old(pending) ==> Recorded()
      ensures buffer[..] == old(buffer[..])[pos := old(buffer[pos]).(number := old(buffer[pos].number) - 1000)]
    {
      ghost var buf, e := buffer[..], buffer[pos].(number := buffer[pos].number - 1000);
      buffer[pos] := buffer[pos].(number := buffer[pos].number - 1000);
      pending := pending - {pos};
      assert buffer[..] == buf[pos := e];
      VisibleSame(buf, buffer[..], filter, Newest(max, number, UnfilteredEntries()));
      if old(Recorded()) && pos in old(pending) {
        NumberedCommit(buf, number, old(pending), pos);
      }
    }

    method Clear()
      requires Valid()
      modifies this`number, this`pending, buffer
      ensures Valid() && number == 0 && Shows() == [] && Recorded() && pending == {}
      ensures forall i :: 0 <= i < max ==> buffer[i] == Entry(0, false)
    {
      for i := 0 to max
        invariant forall j :: 0 <= j < i ==> buffer[j] == Entry(0, false)
      {
        buffer[i] := Entry(0, false);
      }
      number, pending := 0, {};
    }
  }
}

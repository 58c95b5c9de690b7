/**
 * The ranking done by the GET /leaderboard handler of server.js: which stored
 * records are shown, the deviation computed for each, the stable sort by
 * deviation, the top 20 per mode and the fixed order of the modes.
 */
module Ranking {
  import opened Json
  import opened Text
  import opened Validation

  /** How many rows each mode keeps (`slice(0, 20)`). */
  const TopN: nat := 20

  /**
   * A leaderboard row: the stored record with the `deviation` the handler
   * writes onto it, as the number of hundredths of a percent that
   * `deviation.toFixed(2)` shows.
   */
  datatype Entry = Entry(name: Value, mode: string, score: string, deviation: nat)

  function Dist(a: int, b: int): nat
  {
    if a >= b then a - b else b - a
  }

  function Min(a: nat, b: nat): nat
  {
    if a <= b then a else b
  }

  /** `parseFloat(sc.mode)`: the target in seconds. */
  function Target(mode: string): (m: nat)
    requires mode in AllowedModes
    ensures m > 0
  {
    if mode == "10" then 10 else if mode == "60" then 60 else 100
  }

  lemma TwoDigitsValue(s: string)
    requires |s| == 2 && AllDigits(s)
    ensures DigitsValue(s) == DigitValue(s[0]) * 10 + DigitValue(s[1])
  {
    var first := s[..1];
    assert first[..0] == [] && first[0] == s[0];
    assert DigitsValue(first) == DigitValue(s[0]);
    assert s[..|s| - 1] == first;
  }

  /** The client's `parseInt(mode)` and the server's `parseFloat(sc.mode)` agree on every allowed mode. */
  lemma ModeTarget(mode: string)
    requires mode in AllowedModes
    ensures ParseInt(mode) == Some(Target(mode))
  {
    assert mode[..|mode|] == mode;
    LeadingDigitsAt(mode, |mode|);
    if |mode| == 2 {
      TwoDigitsValue(mode);
    } else {
      TwoDigitsValue(mode[..2]);
      assert mode[..2][0] == mode[0] && mode[..2][1] == mode[1];
    }
  }

  /**
   * The deviation of a score of `t` thousandths of a second from a target of
   * `m` seconds, `|score - m| / m * 100`, in hundredths of a percent and
   * rounded to the nearest one, halves upwards, as `toFixed(2)` rounds. The
   * exact value is `10 * Dist(t, 1000 * m) / m`.
   */
  function RoundedDeviation(t: nat, m: nat): (h: nat)
    requires m > 0
    ensures m * (2 * h - 1) <= 20 * Dist(t, 1000 * m) < m * (2 * h + 1)
  {
    var x := 20 * Dist(t, 1000 * m) + m;
    var h := x / (2 * m);
    assert 2 * m * h <= x < 2 * m * (h + 1);
    h
  }

  /** Rounding keeps the order of exact deviations from one target. */
  lemma RoundedDeviationMonotone(t1: nat, t2: nat, m: nat)
    requires m > 0 && Dist(t1, 1000 * m) <= Dist(t2, 1000 * m)
    ensures RoundedDeviation(t1, m) <= RoundedDeviation(t2, m)
  {
    DivMonotone(20 * Dist(t1, 1000 * m) + m, 20 * Dist(t2, 1000 * m) + m, 2 * m);
  }

  lemma DivMonotone(a: nat, b: nat, d: nat)
    requires 0 < d && a <= b
    ensures a / d <= b / d
  {
    var q1, q2 := a / d, b / d;
    assert d * q1 <= a && b < d * (q2 + 1);
    if q1 > q2 {
      MulMonotone(d, q2 + 1, q1);
    }
  }

  lemma MulMonotone(d: nat, x: nat, y: nat)
    requires x <= y
    ensures d * x <= d * y
  {
    assert d * y == d * x + d * (y - x);
  }

  /** The record passes the handler's filter: an allowed mode and a well-formed score string. */
  predicate Eligible(r: Record)
  {
    r.mode.Str? && r.mode.s in AllowedModes && r.score.Str? && MatchesScoreRegex(r.score.s)
  }

  function EntryOf(r: Record): (e: Entry)
    requires Eligible(r)
    ensures e.name == r.name && e.mode == r.mode.s && e.score == r.score.s
  {
    Entry(r.name, r.mode.s, r.score.s, RoundedDeviation(ScoreThousandths(r.score.s), Target(r.mode.s)))
  }

  /** A row whose deviation is that of its own score and mode. */
  predicate WellFormed(e: Entry)
  {
    e.mode in AllowedModes && MatchesScoreRegex(e.score)
    && e.deviation == RoundedDeviation(ScoreThousandths(e.score), Target(e.mode))
  }

  /** `modes[m]` after the `forEach`: the rows of the eligible records of mode `m`, in store order. */
  function Group(store: seq<Record>, m: string): seq<Entry>
  {
    if store == [] then []
    else
      var r := store[|store| - 1];
      Group(store[..|store| - 1], m) + (if Eligible(r) && r.mode.s == m then [EntryOf(r)] else [])
  }

  lemma {:induction false} GroupMembers(store: seq<Record>, m: string)
    ensures forall e :: e in Group(store, m) <==>
      exists r :: r in store && Eligible(r) && r.mode.s == m && e == EntryOf(r)
  {
    if store != [] {
      var init, r := store[..|store| - 1], store[|store| - 1];
      assert store == init + [r];
      GroupMembers(init, m);
    }
  }

  lemma GroupWellFormed(store: seq<Record>, m: string)
    ensures forall e :: e in Group(store, m) ==> WellFormed(e) && e.mode == m
  {
    GroupMembers(store, m);
  }

  // ----- the stable sort by deviation -----

  predicate Sorted(s: seq<Entry>)
  {
    forall i, j :: 0 <= i < j < |s| ==> s[i].deviation <= s[j].deviation
  }

  /** Inserting `x` after every element from the right that is not larger than it. */
  function Insert(r: seq<Entry>, x: Entry): seq<Entry>
  {
    if r == [] || r[|r| - 1].deviation <= x.deviation then r + [x]
    else Insert(r[..|r| - 1], x) + [r[|r| - 1]]
  }

  /**
   * `sort((a, b) => parseFloat(a.deviation) - parseFloat(b.deviation))` on the
   * rounded deviations: insertion sort, which is stable.
   */
  function StableSort(s: seq<Entry>): seq<Entry>
  {
    if s == [] then [] else Insert(StableSort(s[..|s| - 1]), s[|s| - 1])
  }

  /** The elements of `s` whose deviation is `k`, in their order in `s`. */
  function WithKey(s: seq<Entry>, k: nat): seq<Entry>
  {
    if s == [] then []
    else WithKey(s[..|s| - 1], k) + (if s[|s| - 1].deviation == k then [s[|s| - 1]] else [])
  }

  lemma {:induction false} WithKeyConcat(a: seq<Entry>, b: seq<Entry>, k: nat)
    ensures WithKey(a + b, k) == WithKey(a, k) + WithKey(b, k)
  {
    if b == [] {
      assert a + b == a;
    } else {
      assert (a + b)[..|a + b| - 1] == a + b[..|b| - 1];
      WithKeyConcat(a, b[..|b| - 1], k);
    }
  }

  lemma {:induction false} WithKeyMembers(s: seq<Entry>, k: nat)
    ensures forall x :: x in WithKey(s, k) ==> x in s && x.deviation == k
  {
    if s != [] {
      WithKeyMembers(s[..|s| - 1], k);
      assert forall x :: x in s[..|s| - 1] ==> x in s;
    }
  }

  /** Where the inner loop of an insertion sort stops, Insert puts the element. */
  lemma {:induction false} InsertAt(r: seq<Entry>, x: Entry, j: nat)
    requires j <= |r|
    requires forall k :: j <= k < |r| ==> r[k].deviation > x.deviation
    requires j == 0 || r[j - 1].deviation <= x.deviation
    ensures Insert(r, x) == r[..j] + [x] + r[j..]
    decreases |r| - j
  {
    if j == |r| {
      assert r[..j] == r && r[j..] == [];
    } else {
      var init := r[..|r| - 1];
      InsertAt(init, x, j);
      assert init[..j] == r[..j];
      assert init[j..] + [r[|r| - 1]] == r[j..];
    }
  }

  lemma {:induction false} InsertMultiset(r: seq<Entry>, x: Entry)
    ensures multiset(Insert(r, x)) == multiset(r) + multiset{x}
  {
    if !(r == [] || r[|r| - 1].deviation <= x.deviation) {
      var init := r[..|r| - 1];
      InsertMultiset(init, x);
      assert r == init + [r[|r| - 1]];
    }
  }

  lemma {:induction false} InsertSorted(r: seq<Entry>, x: Entry)
    requires Sorted(r)
    ensures Sorted(Insert(r, x))
  {
    if !(r == [] || r[|r| - 1].deviation <= x.deviation) {
      var init, last := r[..|r| - 1], r[|r| - 1];
      InsertSorted(init, x);
      InsertMultiset(init, x);
      var t := Insert(init, x);
      forall i | 0 <= i < |t| ensures t[i].deviation <= last.deviation {
        assert t[i] in multiset(t);
        assert t[i] in multiset(init) || t[i] == x;
      }
    }
  }

  /** Inserting `x` appends it to the elements of its own deviation and leaves the others' order alone. */
  lemma {:induction false} InsertWithKey(r: seq<Entry>, x: Entry, k: nat)
    ensures WithKey(Insert(r, x), k) == WithKey(r, k) + (if x.deviation == k then [x] else [])
  {
    if r == [] || r[|r| - 1].deviation <= x.deviation {
      assert (r + [x])[..|r|] == r;
    } else {
      var init, last := r[..|r| - 1], r[|r| - 1];
      InsertWithKey(init, x, k);
      var t := Insert(init, x);
      assert (t + [last])[..|t|] == t;
    }
  }

  /**
   * StableSort orders by deviation, is a permutation, and keeps the input
   * order among elements of equal deviation.
   */
  lemma {:induction false} StableSortCorrect(s: seq<Entry>)
    ensures Sorted(StableSort(s))
    ensures multiset(StableSort(s)) == multiset(s)
    ensures forall k :: WithKey(StableSort(s), k) == WithKey(s, k)
  {
    StableSortSorted(s);
    StableSortMultiset(s);
    forall k ensures WithKey(StableSort(s), k) == WithKey(s, k) {
      StableSortWithKey(s, k);
    }
  }

  lemma {:induction false} StableSortSorted(s: seq<Entry>)
    ensures Sorted(StableSort(s))
  {
    if s != [] {
      StableSortSorted(s[..|s| - 1]);
      InsertSorted(StableSort(s[..|s| - 1]), s[|s| - 1]);
    }
  }

  lemma {:induction false} StableSortMultiset(s: seq<Entry>)
    ensures multiset(StableSort(s)) == multiset(s)
  {
    if s != [] {
      var init, last := s[..|s| - 1], s[|s| - 1];
      StableSortMultiset(init);
      InsertMultiset(StableSort(init), last);
      assert s == init + [last];
    }
  }

  lemma {:induction false} StableSortWithKey(s: seq<Entry>, k: nat)
    ensures WithKey(StableSort(s), k) == WithKey(s, k)
  {
    if s != [] {
      var init, last := s[..|s| - 1], s[|s| - 1];
      StableSortWithKey(init, k);
      InsertWithKey(StableSort(init), last, k);
    }
  }

  lemma WithKeyLast(r: seq<Entry>, k: nat)
    requires r != []
    ensures k == r[|r| - 1].deviation ==> WithKey(r, k) == WithKey(r[..|r| - 1], k) + [r[|r| - 1]]
    ensures k != r[|r| - 1].deviation ==> WithKey(r, k) == WithKey(r[..|r| - 1], k)
  {
  }

  lemma SortedLastIsLargest(r: seq<Entry>, x: Entry)
    requires Sorted(r) && x in r
    ensures x.deviation <= r[|r| - 1].deviation
  {
    var i :| 0 <= i < |r| && r[i] == x;
    if i < |r| - 1 {
      assert r[i].deviation <= r[|r| - 1].deviation;
    }
  }

  /** The deviation of the last element of `r1` occurs in `r2`, so it is at most that of `r2`'s last. */
  lemma LastKeyBounded(r1: seq<Entry>, r2: seq<Entry>)
    requires r1 != [] && r2 != [] && Sorted(r2)
    requires WithKey(r1, r1[|r1| - 1].deviation) == WithKey(r2, r1[|r1| - 1].deviation)
    ensures r1[|r1| - 1].deviation <= r2[|r2| - 1].deviation
  {
    var a := r1[|r1| - 1];
    var w := WithKey(r2, a.deviation);
    WithKeyLast(r1, a.deviation);
    WithKeyMembers(r2, a.deviation);
    assert w[|w| - 1] in w;
    SortedLastIsLargest(r2, w[|w| - 1]);
  }

  /** The last elements of two sorted sequences with the same elements per deviation agree. */
  lemma SameLast(r1: seq<Entry>, r2: seq<Entry>)
    requires r1 != [] && r2 != [] && Sorted(r1) && Sorted(r2)
    requires WithKey(r1, r1[|r1| - 1].deviation) == WithKey(r2, r1[|r1| - 1].deviation)
    requires WithKey(r1, r2[|r2| - 1].deviation) == WithKey(r2, r2[|r2| - 1].deviation)
    ensures r1[|r1| - 1] == r2[|r2| - 1]
  {
    var a, b := r1[|r1| - 1], r2[|r2| - 1];
    LastKeyBounded(r1, r2);
    LastKeyBounded(r2, r1);
    var K := a.deviation;
    WithKeyLast(r1, K);
    WithKeyLast(r2, K);
    var w1, w2 := WithKey(r1, K), WithKey(r2, K);
    assert w1 == w2;
    assert a == w1[|w1| - 1] && b == w2[|w2| - 1];
  }

  /**
   * A sorted sequence is determined by its elements of each deviation, in
   * order. So every stable sort, whatever its algorithm, returns StableSort.
   */
  lemma {:induction false} SortedUnique(r1: seq<Entry>, r2: seq<Entry>)
    requires Sorted(r1) && Sorted(r2)
    requires forall k :: WithKey(r1, k) == WithKey(r2, k)
    ensures r1 == r2
    decreases |r1| + |r2|
  {
    if r1 == [] && r2 != [] {
      WithKeyLast(r2, r2[|r2| - 1].deviation);
    } else if r1 != [] && r2 == [] {
      WithKeyLast(r1, r1[|r1| - 1].deviation);
    } else if r1 != [] {
      assert WithKey(r1, r1[|r1| - 1].deviation) == WithKey(r2, r1[|r1| - 1].deviation);
      assert WithKey(r1, r2[|r2| - 1].deviation) == WithKey(r2, r2[|r2| - 1].deviation);
      SameLast(r1, r2);
      var a := r1[|r1| - 1];
      var i1, i2 := r1[..|r1| - 1], r2[..|r2| - 1];
      forall k ensures WithKey(i1, k) == WithKey(i2, k) {
        WithKeyLast(r1, k);
        WithKeyLast(r2, k);
        if k == a.deviation {
          assert WithKey(i1, k) + [a] == WithKey(i2, k) + [a];
          assert WithKey(i1, k) == (WithKey(i1, k) + [a])[..|WithKey(i1, k)|];
          assert WithKey(i2, k) == (WithKey(i2, k) + [a])[..|WithKey(i2, k)|];
        }
      }
      assert Sorted(i1) && Sorted(i2);
      SortedUnique(i1, i2);
      assert r1 == i1 + [a] && r2 == i2 + [a];
    }
  }

  lemma StableSortUnique(s: seq<Entry>, r: seq<Entry>)
    requires Sorted(r) && forall k :: WithKey(r, k) == WithKey(s, k)
    ensures r == StableSort(s)
  {
    StableSortCorrect(s);
    SortedUnique(r, StableSort(s));
  }

  /**
   * One pass of the insertion sort: `a[..i]` is sorted and `a[i]` is moved
   * left past every larger element.
   */
  method InsertNext(a: array<Entry>, i: nat)
    requires i < a.Length
    modifies a
    ensures a[..i + 1] == Insert(old(a[..i]), old(a[i]))
    ensures a[i + 1..] == old(a[i + 1..])
  {
    ghost var s, all := a[..i], a[..];
    var x := a[i];
    var j := ShiftGreater(a, i, x);
    a[j] := x;
    InsertAt(s, x, j);
    ghost var inserted := s[..j] + [x] + s[j..];
    assert forall k :: 0 <= k <= i ==> a[k] == inserted[k];
    assert a[..i + 1] == inserted;
    assert forall k :: i + 1 <= k < a.Length ==> a[k] == all[k];
    assert a[i + 1..] == all[i + 1..];
  }

  /**
   * Moves the elements of `a[..i]` whose deviation exceeds `x`'s one place
   * to the right, from the end, and returns the gap left for `x`.
   */
  method ShiftGreater(a: array<Entry>, i: nat, x: Entry) returns (j: nat)
    requires i < a.Length
    modifies a
    ensures j <= i
    ensures forall k :: 0 <= k < j ==> a[k] == old(a[k])
    ensures forall k :: j < k <= i ==> a[k] == old(a[k - 1])
    ensures forall k :: j <= k < i ==> old(a[k]).deviation > x.deviation
    ensures j == 0 || old(a[j - 1]).deviation <= x.deviation
    ensures forall k :: i < k < a.Length ==> a[k] == old(a[k])
  {
    ghost var s := a[..];
    j := i;
    while j > 0 && a[j - 1].deviation > x.deviation
      invariant 0 <= j <= i
      invariant forall k :: 0 <= k < j ==> a[k] == s[k]
      invariant forall k :: j < k <= i ==> a[k] == s[k - 1]
      invariant forall k :: j <= k < i ==> s[k].deviation > x.deviation
      invariant forall k :: i < k < a.Length ==> a[k] == s[k]
    {
      a[j] := a[j - 1];
      j := j - 1;
    }
  }

  /** `modes[m].sort(...)` in place, by insertion sort. */
  method SortByDeviation(a: array<Entry>)
    modifies a
    ensures a[..] == StableSort(old(a[..]))
  {
    ghost var input := a[..];
    var i := 0;
    while i < a.Length
      invariant 0 <= i <= a.Length
      invariant a[..i] == StableSort(input[..i])
      invariant a[i..] == input[i..]
    {
      assert input[..i + 1][..i] == input[..i];
      assert StableSort(input[..i + 1]) == Insert(StableSort(input[..i]), input[i]);
      assert a[i] == input[i];
      assert a[i + 1..] == input[i + 1..];
      InsertNext(a, i);
      assert a[..i + 1] == StableSort(input[..i + 1]);
      assert a[i + 1..] == input[i + 1..];
      i := i + 1;
    }
    assert input[..a.Length] == input;
    assert a[..a.Length] == a[..];
  }

  // ----- the leaderboard -----

  /** `slice(0, 20)`. */
  function Top(s: seq<Entry>): (t: seq<Entry>)
    ensures |t| == Min(TopN, |s|) && t == s[..|t|]
  {
    s[..Min(TopN, |s|)]
  }

  /** The rows the handler sends for mode `m`. */
  function Block(store: seq<Record>, m: string): seq<Entry>
  {
    Top(StableSort(Group(store, m)))
  }

  /** The response of GET /leaderboard: the blocks of the three modes, one after the other. */
  function Leaderboard(store: seq<Record>): seq<Entry>
  {
    Block(store, "10") + Block(store, "60") + Block(store, "100")
  }

  /** The position of a mode in the response. */
  function ModeRank(mode: string): nat
  {
    if mode == "10" then 0 else if mode == "60" then 1 else 2
  }

  lemma BlockSorted(store: seq<Record>, m: string)
    ensures |Block(store, m)| == Min(TopN, |Group(store, m)|)
    ensures Sorted(Block(store, m))
  {
    var g := Group(store, m);
    StableSortCorrect(g);
    assert |StableSort(g)| == |multiset(StableSort(g))|;
  }

  lemma BlockInGroup(store: seq<Record>, m: string)
    ensures forall e :: e in Block(store, m) ==> e in Group(store, m)
  {
    var g := Group(store, m);
    StableSortCorrect(g);
    var s := StableSort(g);
    forall e | e in Block(store, m) ensures e in g {
      assert e in multiset(s);
    }
  }

  lemma BlockModes(store: seq<Record>, m: string)
    ensures forall e :: e in Block(store, m) ==> e.mode == m && WellFormed(e)
  {
    BlockInGroup(store, m);
    GroupWellFormed(store, m);
  }

  /**
   * A block holds at most 20 rows, all of its own mode, each the row of an
   * eligible record of the store, sorted by deviation.
   */
  lemma BlockFacts(store: seq<Record>, m: string)
    ensures |Block(store, m)| == Min(TopN, |Group(store, m)|)
    ensures Sorted(Block(store, m))
    ensures forall e :: e in Block(store, m) ==> e.mode == m && WellFormed(e)
    ensures forall e :: e in Block(store, m) ==>
      exists r :: r in store && Eligible(r) && r.mode.s == m && e == EntryOf(r)
  {
    BlockSorted(store, m);
    BlockModes(store, m);
    BlockInGroup(store, m);
    GroupMembers(store, m);
  }

  lemma SortedPrefixIsBest(s: seq<Entry>, n: nat)
    requires Sorted(s) && n <= |s|
    ensures forall b, e :: b in s[..n] && e in s[n..] ==> b.deviation <= e.deviation
  {
    forall b, e | b in s[..n] && e in s[n..] ensures b.deviation <= e.deviation {
      var i :| 0 <= i < n && s[..n][i] == b;
      var j :| 0 <= j < |s| - n && s[n..][j] == e;
      assert s[i] == b && s[n + j] == e;
    }
  }

  /**
   * The block of a mode is the best of its group: nothing left out has a
   * smaller deviation than anything kept.
   */
  lemma BlockIsBest(store: seq<Record>, m: string)
    ensures multiset(Block(store, m)) <= multiset(Group(store, m))
    ensures forall b, e :: b in Block(store, m) && e in multiset(Group(store, m)) - multiset(Block(store, m))
              ==> b.deviation <= e.deviation
  {
    var g := Group(store, m);
    var s := StableSort(g);
    StableSortCorrect(g);
    var n := |Block(store, m)|;
    var kept, rest := s[..n], s[n..];
    assert Block(store, m) == kept;
    assert s == kept + rest;
    assert multiset(g) == multiset(kept) + multiset(rest);
    assert multiset(g) - multiset(kept) == multiset(rest);
    SortedPrefixIsBest(s, n);
    forall b: Entry, e: Entry | b in kept && e in multiset(rest) ensures b.deviation <= e.deviation {
      assert e in rest;
    }
  }

  /**
   * Ties keep insertion order: the rows of one deviation in a block are the
   * first of that deviation's rows in store order.
   */
  lemma BlockStable(store: seq<Record>, m: string)
    ensures forall k :: WithKey(Block(store, m), k) <= WithKey(Group(store, m), k)
  {
    var g := Group(store, m);
    var s := StableSort(g);
    StableSortCorrect(g);
    var n := |Block(store, m)|;
    assert s == s[..n] + s[n..];
    forall k ensures WithKey(Block(store, m), k) <= WithKey(g, k) {
      WithKeyConcat(s[..n], s[n..], k);
    }
  }

  /** `|score - target|` in thousandths of a second: the exact deviation times `target`. */
  function ExactDistance(e: Entry): nat
    requires WellFormed(e)
  {
    Dist(ScoreThousandths(e.score), 1000 * Target(e.mode))
  }

  /** `a` is strictly nearer its target than `b`, both in the same mode. */
  predicate Closer(a: Entry, b: Entry)
  {
    WellFormed(a) && WellFormed(b) && a.mode == b.mode && ExactDistance(a) < ExactDistance(b)
  }

  /**
   * In a block a row can stand above a row that is strictly nearer the
   * target only when both round to the same shown deviation.
   */
  lemma BlockExactOrder(store: seq<Record>, m: string)
    ensures forall i, j :: 0 <= i < j < |Block(store, m)| && Closer(Block(store, m)[j], Block(store, m)[i])
              ==> Block(store, m)[i].deviation == Block(store, m)[j].deviation
  {
    BlockSorted(store, m);
    var b := Block(store, m);
    forall i, j | 0 <= i < j < |b| && Closer(b[j], b[i]) ensures b[i].deviation == b[j].deviation {
      RoundedDeviationMonotone(ScoreThousandths(b[j].score), ScoreThousandths(b[i].score), Target(b[i].mode));
    }
  }

  /** Every row of the response is the row of an eligible stored record. */
  lemma LeaderboardEntries(store: seq<Record>)
    ensures forall e :: e in Leaderboard(store) ==>
      WellFormed(e) && exists r :: r in store && Eligible(r) && e == EntryOf(r)
  {
    BlockFacts(store, "10");
    BlockFacts(store, "60");
    BlockFacts(store, "100");
  }

  /** The row at position `i` of the response, read off the three blocks. */
  lemma LeaderboardAt(store: seq<Record>, i: nat)
    requires i < |Leaderboard(store)|
    ensures var b1, b2, b3 := Block(store, "10"), Block(store, "60"), Block(store, "100");
      if i < |b1| then Leaderboard(store)[i] == b1[i] && Leaderboard(store)[i].mode == "10"
      else if i < |b1| + |b2| then Leaderboard(store)[i] == b2[i - |b1|] && Leaderboard(store)[i].mode == "60"
      else Leaderboard(store)[i] == b3[i - |b1| - |b2|] && Leaderboard(store)[i].mode == "100"
  {
    var b1, b2, b3 := Block(store, "10"), Block(store, "60"), Block(store, "100");
    if i < |b1| {
      BlockModes(store, "10");
      assert b1[i] in b1;
    } else if i < |b1| + |b2| {
      BlockModes(store, "60");
      assert b2[i - |b1|] in b2;
    } else {
      BlockModes(store, "100");
      assert b3[i - |b1| - |b2|] in b3;
    }
  }

  lemma LeaderboardPair(store: seq<Record>, i: nat, j: nat)
    requires i < j < |Leaderboard(store)|
    ensures ModeRank(Leaderboard(store)[i].mode) <= ModeRank(Leaderboard(store)[j].mode)
    ensures Leaderboard(store)[i].mode == Leaderboard(store)[j].mode
            ==> Leaderboard(store)[i].deviation <= Leaderboard(store)[j].deviation
  {
    LeaderboardAt(store, i);
    LeaderboardAt(store, j);
    var n1, n2 := |Block(store, "10")|, |Block(store, "60")|;
    if j < n1 {
      BlockSorted(store, "10");
    } else if n1 <= i && j < n1 + n2 {
      BlockSorted(store, "60");
    } else if n1 + n2 <= i {
      BlockSorted(store, "100");
    }
  }

  /**
   * The modes come in the order 10, 60, 100, and within a mode the shown
   * deviations never decrease.
   */
  lemma LeaderboardOrder(store: seq<Record>)
    ensures forall i, j :: 0 <= i < j < |Leaderboard(store)| ==>
      ModeRank(Leaderboard(store)[i].mode) <= ModeRank(Leaderboard(store)[j].mode)
    ensures forall i, j :: 0 <= i < j < |Leaderboard(store)| && Leaderboard(store)[i].mode == Leaderboard(store)[j].mode
              ==> Leaderboard(store)[i].deviation <= Leaderboard(store)[j].deviation
  {
    forall i, j | 0 <= i < j < |Leaderboard(store)|
      ensures ModeRank(Leaderboard(store)[i].mode) <= ModeRank(Leaderboard(store)[j].mode)
      ensures Leaderboard(store)[i].mode == Leaderboard(store)[j].mode
              ==> Leaderboard(store)[i].deviation <= Leaderboard(store)[j].deviation
    {
      LeaderboardPair(store, i, j);
    }
  }

  /** The example of a score of 10.050 s in mode 10: a deviation shown as 0.50. */
  lemma DeviationExample()
    ensures RoundedDeviation(10050, 10) == 50
  {
  }
}

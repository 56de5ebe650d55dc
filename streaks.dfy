/** Journaling streaks (`calculate_streaks` in backend/server.py).
    Calendar dates are day numbers, so "the next day" is `d + 1`; the clock
    is the `today` parameter. */
module Streaks {
  import opened Common

  function Elems(s: seq<int>): set<int>
  {
    set x | x in s
  }

  /** Strictly ascending: what `sorted(set(...))` produces. */
  predicate Ascending(d: seq<int>)
  {
    forall i, j :: 0 <= i < j < |d| ==> d[i] < d[j]
  }

  lemma ElemsCons(h: int, t: seq<int>)
    ensures Elems([h] + t) == {h} + Elems(t)
  {
    assert forall k :: 0 <= k < |t| ==> ([h] + t)[k + 1] == t[k];
  }

  /** Prefixing a date smaller than every element keeps a sequence ascending. */
  lemma AscendingCons(h: int, t: seq<int>)
    requires Ascending(t)
    requires forall y :: y in Elems(t) ==> h < y
    ensures Ascending([h] + t)
  {
    forall i, j | 0 <= i < j < |t| + 1
      ensures ([h] + t)[i] < ([h] + t)[j]
    {
      assert ([h] + t)[j] == t[j - 1];
      assert t[j - 1] in Elems(t);
    }
  }

  /** The head of an ascending sequence is below every later date. */
  lemma AscendingSplit(d: seq<int>)
    requires Ascending(d) && d != []
    ensures d == [d[0]] + d[1..]
    ensures Ascending(d[1..])
    ensures forall y :: y in Elems(d[1..]) ==> d[0] < y
  {
    assert d == [d[0]] + d[1..];
    forall y | y in Elems(d[1..])
      ensures d[0] < y
    {
      var k :| 0 <= k < |d| - 1 && d[1..][k] == y;
      assert d[k + 1] == y;
    }
  }

  /** Insert `x` into an ascending sequence unless it is already there. */
  function Insert(d: seq<int>, x: int): seq<int>
  {
    if d == [] then [x]
    else if x < d[0] then [x] + d
    else if x == d[0] then d
    else [d[0]] + Insert(d[1..], x)
  }

  /** Inserting keeps a sequence ascending and adds exactly `x`. */
  lemma InsertSorted(d: seq<int>, x: int)
    requires Ascending(d)
    ensures Ascending(Insert(d, x))
    ensures Elems(Insert(d, x)) == Elems(d) + {x}
  {
    InsertAscending(d, x);
    InsertElems(d, x);
  }

  /** Insertion adds exactly the new date. */
  lemma {:induction false} InsertElems(d: seq<int>, x: int)
    ensures Elems(Insert(d, x)) == Elems(d) + {x}
  {
    if d == [] {
      ElemsCons(x, []);
    } else if x < d[0] {
      ElemsCons(x, d);
    } else if x == d[0] {
      assert d[0] in Elems(d);
    } else {
      assert d == [d[0]] + d[1..];
      ElemsCons(d[0], d[1..]);
      InsertElems(d[1..], x);
      ElemsCons(d[0], Insert(d[1..], x));
    }
  }

  /** Insertion keeps the dates ascending. */
  lemma {:induction false} InsertAscending(d: seq<int>, x: int)
    requires Ascending(d)
    ensures Ascending(Insert(d, x))
  {
    if d == [] {
    } else if x < d[0] {
      AscendingBounds(d);
      AscendingCons(x, d);
    } else if x > d[0] {
      AscendingSplit(d);
      InsertAscending(d[1..], x);
      InsertElems(d[1..], x);
      AscendingCons(d[0], Insert(d[1..], x));
    }
  }

  /** `sorted(set(dates))`: the distinct dates in ascending order. */
  function SortDedup(s: seq<int>): (r: seq<int>)
    ensures Ascending(r)
    ensures Elems(r) == Elems(s)
  {
    if s == [] then []
    else
      var p := SortDedup(s[..|s| - 1]);
      InsertSorted(p, s[|s| - 1]);
      var r := Insert(p, s[|s| - 1]);
      assert s == s[..|s| - 1] + [s[|s| - 1]];
      assert Elems(s) == Elems(s[..|s| - 1]) + {s[|s| - 1]};
      r
  }

  /** The first and last dates of an ascending sequence are its least and
      greatest elements. */
  lemma AscendingBounds(d: seq<int>)
    requires Ascending(d) && d != []
    ensures forall x :: x in Elems(d) ==> d[0] <= x <= d[|d| - 1]
  {
    forall x | x in Elems(d)
      ensures d[0] <= x <= d[|d| - 1]
    {
      var m :| 0 <= m < |d| && d[m] == x;
      assert m > 0 ==> d[0] < d[m];
      assert m < |d| - 1 ==> d[m] < d[|d| - 1];
    }
  }

  lemma AscendingTail(d: seq<int>)
    requires Ascending(d) && d != []
    ensures Elems(d[1..]) == Elems(d) - {d[0]}
  {
    assert d == [d[0]] + d[1..];
    assert forall k :: 1 <= k < |d| ==> d[0] < d[k];
  }

  /** Two ascending sequences with the same elements are equal. */
  lemma {:induction false} AscendingUnique(a: seq<int>, b: seq<int>)
    requires Ascending(a) && Ascending(b)
    requires Elems(a) == Elems(b)
    ensures a == b
    decreases |a|
  {
    assert |a| == 0 || a[0] in Elems(b);
    assert |b| == 0 || b[0] in Elems(a);
    if a != [] {
      AscendingBounds(a);
      AscendingBounds(b);
      AscendingTail(a);
      AscendingTail(b);
      AscendingUnique(a[1..], b[1..]);
      assert a == [a[0]] + a[1..] && b == [b[0]] + b[1..];
    }
  }

  /** An ascending sequence holds as many dates as its set of elements. */
  lemma {:induction false} AscendingCard(d: seq<int>)
    requires Ascending(d)
    ensures |Elems(d)| == |d|
  {
    if d != [] {
      AscendingCard(d[1..]);
      assert d == [d[0]] + d[1..];
      assert d[0] !in Elems(d[1..]) by {
        assert forall k :: 1 <= k < |d| ==> d[0] < d[k];
      }
      assert Elems(d) == {d[0]} + Elems(d[1..]);
    }
  }

  // ---------------------------------------------------------------------
  // Specification of the two streaks over the ascending distinct dates.
  // ---------------------------------------------------------------------

  /** Length of the run of day-consecutive dates that ends at index `j`. */
  function RunBack(d: seq<int>, j: nat): (n: nat)
    requires j < |d|
    ensures 1 <= n <= j + 1
  {
    if j == 0 || d[j] - d[j - 1] != 1 then 1 else RunBack(d, j - 1) + 1
  }

  function Max(a: int, b: int): int
  {
    if a < b then b else a
  }

  /** Longest run ending among the first `n` dates. */
  function MaxRun(d: seq<int>, n: nat): nat
    requires n <= |d|
  {
    if n == 0 then 0 else Max(MaxRun(d, n - 1), RunBack(d, n - 1))
  }

  /** The current streak: the run ending at the latest date, provided that
      date is today or yesterday. */
  function CurrentOf(d: seq<int>, today: int): nat
  {
    if d != [] && (d[|d| - 1] == today || d[|d| - 1] == today - 1)
    then RunBack(d, |d| - 1) else 0
  }

  /** (current_streak, longest_streak) for a list of entry dates. */
  function Streaks(dates: seq<int>, today: int): (nat, nat)
  {
    var d := SortDedup(dates);
    (CurrentOf(d, today), MaxRun(d, |d|))
  }

  /** `calculate_streaks`. `fetched` is the query's list of entry dates, or
      `None` when the query or a date conversion raised: the handler then
      swallows the exception and reports (0, 0). */
  method CalculateStreaks(fetched: Option<seq<int>>, today: int) returns (current: nat, longest: nat)
    ensures fetched.None? ==> current == 0 && longest == 0
    ensures fetched.Some? ==> (current, longest) == Streaks(fetched.value, today)
  {
    if fetched.None? || fetched.value == [] {
      return 0, 0;
    }
    var d := SortDedup(fetched.value);
    assert d != [] by {
      assert fetched.value[0] in Elems(d);
    }
    current := CurrentStreak(d, today);
    longest := LongestStreak(d);
  }

  /** The backward scan from the latest date (the first loop of
      `calculate_streaks`). */
  method CurrentStreak(d: seq<int>, today: int) returns (current: nat)
    requires d != []
    ensures current == CurrentOf(d, today)
  {
    current := 0;
    var n := |d|;
    if d[n - 1] == today || d[n - 1] == today - 1 {
      current := 1;
      var i := n - 2;
      while i >= 0
        invariant -1 <= i <= n - 2
        invariant current == n - 1 - i
        invariant RunBack(d, n - 1) == RunBack(d, i + 1) + (n - 2 - i)
      {
        if d[i + 1] - d[i] == 1 {
          current := current + 1;
          i := i - 1;
        } else {
          break;
        }
      }
    }
  }

  /** The forward pass with a running run length (the second loop of
      `calculate_streaks`), finalised after the loop. */
  method LongestStreak(d: seq<int>) returns (longest: nat)
    requires d != []
    ensures longest == MaxRun(d, |d|)
  {
    longest := 0;
    var temp := 1;
    for i := 1 to |d|
      invariant temp == RunBack(d, i - 1)
      invariant Max(longest, temp) == MaxRun(d, i)
      invariant temp > 1 ==> longest >= temp
    {
      if d[i] - d[i - 1] == 1 {
        temp := temp + 1;
        longest := Max(longest, temp);
      } else {
        temp := 1;
      }
    }
    longest := Max(longest, temp);
  }

  // ---------------------------------------------------------------------
  // What the two numbers mean.
  // ---------------------------------------------------------------------

  /** The streaks depend only on the set of dates: neither on the order in
      which the query returns them nor on repeated dates. */
  lemma StreaksIgnoreOrderAndDuplicates(a: seq<int>, b: seq<int>, today: int)
    requires Elems(a) == Elems(b)
    ensures Streaks(a, today) == Streaks(b, today)
  {
    AscendingUnique(SortDedup(a), SortDedup(b));
  }

  /** `days` holds every day of `[start, start + len)`. */
  ghost predicate RunIn(days: set<int>, start: int, len: nat)
  {
    forall x :: start <= x < start + len ==> x in days
  }

  /** The run the loop counts at `j` is a block of consecutive days that
      are all in the history, and the day just before it is not. */
  lemma RunBackIsMaximalRun(d: seq<int>, j: nat)
    requires Ascending(d) && j < |d|
    ensures RunIn(Elems(d), d[j] - RunBack(d, j) + 1, RunBack(d, j))
    ensures d[j] - RunBack(d, j) !in Elems(d)
  {
    RunBackCovers(d, j);
    RunBackStartsAfterGap(d, j);
  }

  lemma {:induction false} RunBackCovers(d: seq<int>, j: nat)
    requires j < |d|
    ensures RunIn(Elems(d), d[j] - RunBack(d, j) + 1, RunBack(d, j))
  {
    assert d[j] in Elems(d);
    if j > 0 && d[j] - d[j - 1] == 1 {
      RunBackCovers(d, j - 1);
    }
  }

  lemma {:induction false} RunBackStartsAfterGap(d: seq<int>, j: nat)
    requires Ascending(d) && j < |d|
    ensures d[j] - RunBack(d, j) !in Elems(d)
  {
    if j > 0 && d[j] - d[j - 1] == 1 {
      RunBackStartsAfterGap(d, j - 1);
    } else {
      forall m | 0 <= m < |d|
        ensures d[m] != d[j] - 1
      {
        if m < j - 1 {
          assert d[m] < d[j - 1];
        } else if m == j - 1 {
          assert d[j - 1] < d[j];
        } else if m > j {
          assert d[j] < d[m];
        }
      }
    }
  }

  /** Two dates one day apart sit at neighbouring indices. */
  lemma ConsecutiveAdjacent(d: seq<int>)
    requires Ascending(d)
    ensures forall a, b :: 0 <= a < |d| && 0 <= b < |d| && d[a] + 1 == d[b] ==> b == a + 1
  {
    forall a, b | 0 <= a < |d| && 0 <= b < |d| && d[a] + 1 == d[b]
      ensures b == a + 1
    {
      assert a < b;
      assert d[a] < d[a + 1];
      assert d[a + 1] <= d[b];
    }
  }

  /** Any run of days in the history ending at the date `d[j]` is no longer
      than the run the loop counts at `j`. */
  lemma {:induction false} RunInBoundsRunBack(d: seq<int>, j: nat, start: int, len: nat)
    requires Ascending(d) && j < |d|
    requires 1 <= len && RunIn(Elems(d), start, len) && d[j] == start + len - 1
    ensures len <= RunBack(d, j)
    decreases len
  {
    if len > 1 {
      assert d[j] - 1 in Elems(d);
      var m :| 0 <= m < |d| && d[m] == d[j] - 1;
      ConsecutiveAdjacent(d);
      assert m == j - 1;
      assert RunIn(Elems(d), start, len - 1);
      RunInBoundsRunBack(d, j - 1, start, len - 1);
    }
  }

  lemma {:induction false} MaxRunFacts(d: seq<int>, n: nat)
    requires n <= |d|
    ensures forall j :: 0 <= j < n ==> RunBack(d, j) <= MaxRun(d, n)
    ensures n > 0 ==> exists j :: 0 <= j < n && RunBack(d, j) == MaxRun(d, n)
    ensures MaxRun(d, n) <= n
  {
    if n > 0 {
      MaxRunFacts(d, n - 1);
      if MaxRun(d, n - 1) >= RunBack(d, n - 1) && n > 1 {
        var j :| 0 <= j < n - 1 && RunBack(d, j) == MaxRun(d, n - 1);
        assert RunBack(d, j) == MaxRun(d, n);
      } else {
        assert RunBack(d, n - 1) == MaxRun(d, n);
      }
    }
  }

  /** The current streak is 0 unless the latest date is today or yesterday;
      otherwise it is at least 1 and is exactly the number of consecutive
      days ending at the latest date that are in the history. */
  lemma CurrentStreakMeaning(dates: seq<int>, today: int, latest: int)
    requires latest in Elems(dates)
    requires forall x :: x in Elems(dates) ==> x <= latest
    ensures latest != today && latest != today - 1 ==> Streaks(dates, today).0 == 0
    ensures latest == today || latest == today - 1 ==>
      var c := Streaks(dates, today).0;
      c >= 1 && RunIn(Elems(dates), latest - c + 1, c) && latest - c !in Elems(dates)
  {
    var d := SortDedup(dates);
    assert latest in Elems(d);
    AscendingBounds(d);
    assert d[|d| - 1] in Elems(dates);
    assert d[|d| - 1] == latest;
    RunBackIsMaximalRun(d, |d| - 1);
  }

  /** The longest streak of a non-empty history lies between 1 and the
      number of distinct dates, some run of days has that length, and every
      run of days in the history is at most that long. */
  lemma LongestStreakMeaning(dates: seq<int>, today: int)
    requires dates != []
    ensures var l := Streaks(dates, today).1;
      && 1 <= l <= |Elems(dates)|
      && (exists start :: RunIn(Elems(dates), start, l))
      && (forall start, len: nat :: RunIn(Elems(dates), start, len) ==> len <= l)
  {
    var d := SortDedup(dates);
    assert dates[0] in Elems(d);
    var l := MaxRun(d, |d|);
    AscendingCard(d);
    MaxRunFacts(d, |d|);
    var j :| 0 <= j < |d| && RunBack(d, j) == l;
    RunBackIsMaximalRun(d, j);
    forall start, len: nat | RunIn(Elems(d), start, len)
      ensures len <= l
    {
      if len >= 1 {
        assert start + len - 1 in Elems(d);
        var k :| 0 <= k < |d| && d[k] == start + len - 1;
        RunInBoundsRunBack(d, k, start, len);
      }
    }
  }

  /** The current streak never exceeds the longest streak. */
  lemma CurrentAtMostLongest(dates: seq<int>, today: int)
    ensures Streaks(dates, today).0 <= Streaks(dates, today).1
  {
    var d := SortDedup(dates);
    MaxRunFacts(d, |d|);
  }

  /** Worked history: two runs, the later one longer and ending today. */
  lemma TwoRunsExample(t: int)
    ensures Streaks([t - 10, t - 9, t - 8, t - 3, t - 2, t - 1, t], t) == (4, 4)
  {
    var d := [t - 10, t - 9, t - 8, t - 3, t - 2, t - 1, t];
    AscendingUnique(SortDedup(d), d);
    assert RunBack(d, 0) == 1;
    assert RunBack(d, 1) == 2;
    assert RunBack(d, 2) == 3;
    assert RunBack(d, 3) == 1;
    assert RunBack(d, 4) == 2;
    assert RunBack(d, 5) == 3;
    assert RunBack(d, 6) == 4;
    assert MaxRun(d, 1) == 1;
    assert MaxRun(d, 2) == 2;
    assert MaxRun(d, 3) == 3;
    assert MaxRun(d, 4) == 3;
    assert MaxRun(d, 5) == 3;
    assert MaxRun(d, 6) == 3;
  }
}

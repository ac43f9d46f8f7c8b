/** The snapshot locator: the latest snapshot timestamp before an instant, found by
    querying backward in windows whose width in hours is squared after every miss. */
module Locator {
  import opened Types
  import opened Seqs

  const OneHourMs := 3600000

  /** Integer.MAX_VALUE, where `(int)Math.pow(i, 2)` saturates. */
  const IntMax := 2147483647

  /** The multiplier update `i = (int)Math.pow(i, 2)`: the square, saturated to Integer.MAX_VALUE
      by the narrowing cast. */
  function NextMultiplier(i: int): (j: int)
    requires 2 <= i <= IntMax
    ensures 2 <= j <= IntMax
    ensures i < IntMax ==> i < j
    ensures j < IntMax ==> j == i * i
    ensures i * i <= IntMax ==> j == i * i
    ensures i * i > IntMax ==> j == IntMax
  {
    if i * i > IntMax then IntMax else i * i
  }

  /** The loop condition: the window of `i` hours before `t` still starts after the epoch. */
  predicate Visited(t: int, i: int)
  {
    t - OneHourMs * i > 0
  }

  /** The loop, started at multiplier `i`, queries the window of multiplier `j`: `j` is `i` after
      some multiplier updates, and every window on the way, `j`'s included, starts after the epoch. */
  predicate Reaches(t: int, i: int, j: int)
    requires 2 <= i <= IntMax
    decreases IntMax - i
  {
    Visited(t, i) && (j == i || (i < IntMax && Reaches(t, NextMultiplier(i), j)))
  }

  /** Past the first window, the loop reaches only multipliers reached from the next one. */
  lemma ReachesStep(t: int, i: int, j: int)
    requires 2 <= i <= IntMax
    requires Reaches(t, i, j) && j != i
    ensures i < IntMax && Reaches(t, NextMultiplier(i), j) && Visited(t, NextMultiplier(i))
  {
  }

  /** A queried multiplier is never below the one the search started from. */
  lemma {:induction false} ReachesAtLeast(t: int, i: int, j: int)
    requires 2 <= i <= IntMax
    requires Reaches(t, i, j)
    ensures i <= j <= IntMax && Visited(t, j)
    decreases IntMax - i
  {
    if j != i {
      ReachesAtLeast(t, NextMultiplier(i), j);
    }
  }

  /** The query of one iteration: every snapshot strictly inside (t - 1h*i, t), in store order. */
  function Window(snaps: seq<Snapshot>, t: int, i: int): (w: seq<Snapshot>)
    ensures forall s | s in w :: s in snaps && t - OneHourMs * i < s.timestampMs < t
    ensures forall s | s in snaps && t - OneHourMs * i < s.timestampMs < t :: s in w
  {
    Filter(snaps, InWindow(t, i))
  }

  /** The WHERE clause of the locator's query. */
  function InWindow(t: int, i: int): Snapshot -> bool
  {
    (s: Snapshot) => t - OneHourMs * i < s.timestampMs < t
  }

  /** What the search answers when it starts with multiplier `i`: the timestamp of the last row
      of the first non-empty window, or 0 once the window would reach back past the epoch. */
  function LatestFrom(snaps: seq<Snapshot>, t: int, i: int): int
    requires 2 <= i <= IntMax
    requires t <= OneHourMs * IntMax
    decreases IntMax - i
  {
    if !Visited(t, i) then 0
    else
      var w := Window(snaps, t, i);
      if w != [] then w[|w| - 1].timestampMs
      else LatestFrom(snaps, t, NextMultiplier(i))
  }

  /** The lower bound of the widest window the search queries from multiplier `i` on
      (`t` itself when it queries none): nothing older is ever looked at. */
  function Horizon(t: int, i: int): (h: int)
    requires 2 <= i <= IntMax
    requires t <= OneHourMs * IntMax
    ensures Visited(t, i) ==> 0 <= h <= t - OneHourMs * i
    ensures !Visited(t, i) ==> h == t
    decreases IntMax - i
  {
    if !Visited(t, i) then t
    else if !Visited(t, NextMultiplier(i)) then t - OneHourMs * i
    else Horizon(t, NextMultiplier(i))
  }

  /** findLatestAllSnapshotBefore: the loop with its inner pass over the query result, which
      keeps the timestamp of the last row iterated, and its early exit on a non-zero find. */
  method FindLatestAllSnapshotBefore(snaps: seq<Snapshot>, timestampMs: int)
    returns (foundTimestampMs: int)
    requires timestampMs <= OneHourMs * IntMax
    ensures foundTimestampMs == LatestFrom(snaps, timestampMs, 2)
    ensures timestampMs <= 2 * OneHourMs ==> foundTimestampMs == 0
  {
    foundTimestampMs := 0;
    var i := 2;
    while timestampMs - OneHourMs * i > 0
      invariant 2 <= i <= IntMax
      invariant foundTimestampMs == 0
      invariant LatestFrom(snaps, timestampMs, i) == LatestFrom(snaps, timestampMs, 2)
      decreases IntMax - i
    {
      var iuses := Window(snaps, timestampMs, i);
      var k := 0;
      while k < |iuses|
        invariant 0 <= k <= |iuses|
        invariant foundTimestampMs == if k == 0 then 0 else iuses[k - 1].timestampMs
      {
        foundTimestampMs := iuses[k].timestampMs;
        k := k + 1;
      }
      if foundTimestampMs != 0 {
        assert iuses[|iuses| - 1] in iuses;
        break;
      }
      i := NextMultiplier(i);
    }
  }

  /** The multiplier runs 2, 4, 16, 256, 65536 and then stays at Integer.MAX_VALUE. */
  lemma MultiplierSequence()
    ensures NextMultiplier(2) == 4 && NextMultiplier(4) == 16 && NextMultiplier(16) == 256
    ensures NextMultiplier(256) == 65536 && NextMultiplier(65536) == IntMax
    ensures NextMultiplier(IntMax) == IntMax
  {
  }

  /** Each window contains every row of a narrower one. */
  lemma WindowsNested(snaps: seq<Snapshot>, t: int, i: int, j: int)
    requires i <= j
    ensures forall s | s in Window(snaps, t, i) :: s in Window(snaps, t, j)
  {
  }

  /** The search answers 0 exactly when no snapshot lies strictly between its horizon and `t`. */
  lemma {:induction false} LocateZeroIff(snaps: seq<Snapshot>, t: int, i: int)
    requires 2 <= i <= IntMax
    requires t <= OneHourMs * IntMax
    ensures LatestFrom(snaps, t, i) == 0 <==>
              forall s | s in snaps :: !(Horizon(t, i) < s.timestampMs < t)
    decreases IntMax - i
  {
    if Visited(t, i) {
      var w := Window(snaps, t, i);
      if w != [] {
        assert w[|w| - 1] in w;
      } else {
        var j := NextMultiplier(i);
        if Visited(t, j) {
          LocateZeroIff(snaps, t, j);
        }
      }
    }
  }

  /** A non-zero answer is a stored timestamp strictly between the horizon and `t`. It is the
      timestamp of the last row of the window of some queried multiplier `j`, every window queried
      before it was empty, and it lies strictly inside that window. */
  lemma {:induction false} LocateInRange(snaps: seq<Snapshot>, t: int, i: int)
    requires 2 <= i <= IntMax
    requires t <= OneHourMs * IntMax
    ensures var r := LatestFrom(snaps, t, i);
            r != 0 ==>
              Horizon(t, i) < r < t &&
              (exists s :: s in snaps && s.timestampMs == r) &&
              (exists j :: Reaches(t, i, j) && t - OneHourMs * j < r &&
                           Window(snaps, t, j) != [] &&
                           r == Window(snaps, t, j)[|Window(snaps, t, j)| - 1].timestampMs &&
                           forall k | Reaches(t, i, k) && k < j :: Window(snaps, t, k) == [])
    decreases IntMax - i
  {
    var r := LatestFrom(snaps, t, i);
    if Visited(t, i) {
      var w := Window(snaps, t, i);
      if w != [] {
        assert w[|w| - 1] in w;
        forall k | Reaches(t, i, k) ensures i <= k {
          ReachesAtLeast(t, i, k);
        }
        assert Reaches(t, i, i);
      } else if r != 0 {
        var n := NextMultiplier(i);
        LocateInRange(snaps, t, n);
        var j :| Reaches(t, n, j) && t - OneHourMs * j < r &&
                 Window(snaps, t, j) != [] &&
                 r == Window(snaps, t, j)[|Window(snaps, t, j)| - 1].timestampMs &&
                 forall k | Reaches(t, n, k) && k < j :: Window(snaps, t, k) == [];
        assert Reaches(t, i, j);
        forall k | Reaches(t, i, k) && k < j ensures Window(snaps, t, k) == [] {
          if k != i {
            assert Reaches(t, n, k);
          }
        }
      }
    }
  }

  /** The horizon is the start of the last window the search queries: that window's multiplier is
      reached, the next one is not visited, and no queried window starts below it. */
  lemma {:induction false} HorizonIsLastWindow(t: int, i: int)
    requires 2 <= i <= IntMax
    requires t <= OneHourMs * IntMax
    requires Visited(t, i)
    ensures exists j :: i <= j <= IntMax && Reaches(t, i, j) && !Visited(t, NextMultiplier(j)) &&
                        Horizon(t, i) == t - OneHourMs * j
    ensures forall k | Reaches(t, i, k) :: Horizon(t, i) <= t - OneHourMs * k
    decreases IntMax - i
  {
    var n := NextMultiplier(i);
    if !Visited(t, n) {
      assert Reaches(t, i, i);
      forall k | Reaches(t, i, k) ensures k == i {
        if k != i {
          ReachesStep(t, i, k);
          assert false;
        }
      }
    } else {
      HorizonIsLastWindow(t, n);
      var j :| n <= j <= IntMax && Reaches(t, n, j) && !Visited(t, NextMultiplier(j)) &&
               Horizon(t, n) == t - OneHourMs * j;
      assert Reaches(t, i, j);
      forall k | Reaches(t, i, k) ensures Horizon(t, i) <= t - OneHourMs * k {
        if k != i {
          assert Reaches(t, n, k);
        }
      }
    }
  }

  /** Store order is ascending by timestamp. */
  predicate SortedByTime(snaps: seq<Snapshot>)
  {
    forall a, b | 0 <= a < b < |snaps| :: snaps[a].timestampMs <= snaps[b].timestampMs
  }

  /** A query over a time-ordered store returns its rows in time order. */
  lemma {:induction false} FilterSorted(snaps: seq<Snapshot>, p: Snapshot -> bool)
    requires SortedByTime(snaps)
    ensures SortedByTime(Filter(snaps, p))
    decreases |snaps|
  {
    if snaps != [] {
      var init, last := snaps[..|snaps| - 1], snaps[|snaps| - 1];
      assert SortedByTime(init);
      FilterSorted(init, p);
      var f := Filter(init, p);
      forall x | x in f ensures x.timestampMs <= last.timestampMs {
        var a :| 0 <= a < |init| && init[a] == x;
        assert snaps[a] == x;
      }
    }
  }

  /** Over a time-ordered store a non-zero answer is the greatest stored timestamp before `t`. */
  lemma {:induction false} LocateMaxWhenSorted(snaps: seq<Snapshot>, t: int, i: int)
    requires 2 <= i <= IntMax
    requires t <= OneHourMs * IntMax
    requires SortedByTime(snaps)
    ensures var r := LatestFrom(snaps, t, i);
            r != 0 ==> forall s | s in snaps && s.timestampMs < t :: s.timestampMs <= r
    decreases IntMax - i
  {
    if Visited(t, i) {
      var w := Window(snaps, t, i);
      if w != [] {
        var last := w[|w| - 1];
        assert last in w;
        FilterSorted(snaps, InWindow(t, i));
        forall s | s in snaps && s.timestampMs < t
          ensures s.timestampMs <= last.timestampMs
        {
          if s.timestampMs > t - OneHourMs * i {
            assert s in w;
            var a :| 0 <= a < |w| && w[a] == s;
          }
        }
      } else {
        LocateMaxWhenSorted(snaps, t, NextMultiplier(i));
      }
    }
  }

  /** The answer is the last row iterated, not the greatest: the window query has no ordering. */
  lemma LocateNotMaximum()
    ensures var snaps := [Snapshot("a", 9 * OneHourMs + OneHourMs / 2, 0, 0),
                          Snapshot("b", 9 * OneHourMs, 0, 0)];
            LatestFrom(snaps, 10 * OneHourMs, 2) == 9 * OneHourMs
  {
    var snaps := [Snapshot("a", 9 * OneHourMs + OneHourMs / 2, 0, 0),
                  Snapshot("b", 9 * OneHourMs, 0, 0)];
    var w := Window(snaps, 10 * OneHourMs, 2);
    assert snaps[..1] == [snaps[0]];
    assert w == snaps;
  }

  /** A snapshot older than the horizon is never found: at 3h the only window is (1h, 3h). */
  lemma LocateMissesBeyondHorizon()
    ensures LatestFrom([Snapshot("a", OneHourMs / 2, 0, 0)], 3 * OneHourMs, 2) == 0
  {
    var snaps := [Snapshot("a", OneHourMs / 2, 0, 0)];
    assert Window(snaps, 3 * OneHourMs, 2) == [];
  }
}

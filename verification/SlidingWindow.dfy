/** A time-stamped log that is pruned from its head, and what it still knows of the full history. */
module SlidingWindow {

  datatype Stamped<T> = Stamped(time: real, item: T)

  /** Drop entries from the head for as long as the head is older than the window. */
  function Pruned<T>(log: seq<Stamped<T>>, now: real, window: real): seq<Stamped<T>> {
    if log == [] || now - log[0].time <= window then log else Pruned(log[1..], now, window)
  }

  /** How many entries hold `item`. */
  function Matches<T(==)>(log: seq<Stamped<T>>, item: T): nat {
    if log == [] then 0 else Matches(log[..|log| - 1], item) + if log[|log| - 1].item == item then 1 else 0
  }

  predicate Counts<T(==)>(e: Stamped<T>, item: T, lo: real, hi: real) {
    e.item == item && lo <= e.time <= hi
  }

  /** How many entries hold `item` with a time in the closed interval from `lo` to `hi`. */
  function MatchesIn<T(==)>(h: seq<Stamped<T>>, item: T, lo: real, hi: real): nat {
    if h == [] then 0 else MatchesIn(h[..|h| - 1], item, lo, hi) + if Counts(h[|h| - 1], item, lo, hi) then 1 else 0
  }

  /**
   `log` is what is left of the history `h`: a suffix, missing only entries more than a window older than
   some time seen.
   */
  ghost predicate WindowOf<T>(log: seq<Stamped<T>>, h: seq<Stamped<T>>, seen: seq<real>, window: real) {
    |log| <= |h| && log == h[|h| - |log|..]
    && forall i :: 0 <= i < |h| - |log| ==> Outdated(h[i].time, seen, window)
  }

  ghost predicate Outdated(t: real, seen: seq<real>, window: real) {
    exists j :: 0 <= j < |seen| && seen[j] - t > window
  }

  predicate NonDecreasing(times: seq<real>) {
    forall i, j :: 0 <= i <= j < |times| ==> times[i] <= times[j]
  }

  predicate InOrder<T>(h: seq<Stamped<T>>) {
    forall i, j :: 0 <= i <= j < |h| ==> h[i].time <= h[j].time
  }

  /** The entries of the history that are no older than the window. */
  function Recent<T>(h: seq<Stamped<T>>, now: real, window: real): seq<Stamped<T>> {
    if h == [] then []
    else Recent(h[..|h| - 1], now, window) + if now - h[|h| - 1].time <= window then [h[|h| - 1]] else []
  }

  // ---------------------------------------------------------------- what pruning does

  lemma {:induction false} PrunedIsSuffix<T>(log: seq<Stamped<T>>, now: real, window: real) returns (n: nat)
    ensures n <= |log| && Pruned(log, now, window) == log[n..]
    ensures forall i :: 0 <= i < n ==> now - log[i].time > window
    ensures n < |log| ==> now - log[n].time <= window
  {
    if log == [] || now - log[0].time <= window {
      n := 0;
    } else {
      var m := PrunedIsSuffix(log[1..], now, window);
      n := m + 1;
      assert log[1..][m..] == log[n..];
      forall i | 0 <= i < n ensures now - log[i].time > window {
        if i > 0 {
          assert log[i] == log[1..][i - 1];
        }
      }
    }
  }

  /** Pruning at a time that has been seen keeps the log a window of its history. */
  lemma PruneKeepsWindow<T>(log: seq<Stamped<T>>, h: seq<Stamped<T>>, seen: seq<real>, now: real, window: real)
    requires WindowOf(log, h, seen, window)
    ensures WindowOf(Pruned(log, now, window), h, seen + [now], window)
  {
    var n := PrunedIsSuffix(log, now, window);
    var d := |h| - |log|;
    assert log[n..] == h[d + n..];
    forall i | 0 <= i < d + n ensures Outdated(h[i].time, seen + [now], window) {
      if i < d {
        var j :| 0 <= j < |seen| && seen[j] - h[i].time > window;
        assert (seen + [now])[j] == seen[j];
      } else {
        assert h[i] == log[i - d];
        assert (seen + [now])[|seen|] == now;
      }
    }
  }

  lemma PrunedNoLonger<T>(log: seq<Stamped<T>>, now: real, window: real)
    ensures |Pruned(log, now, window)| <= |log|
  {
    var n := PrunedIsSuffix(log, now, window);
  }

  lemma AppendKeepsWindow<T>(log: seq<Stamped<T>>, h: seq<Stamped<T>>, seen: seq<real>, e: Stamped<T>, window: real)
    requires WindowOf(log, h, seen, window)
    ensures WindowOf(log + [e], h + [e], seen, window)
  {
    var d := |h| - |log|;
    assert (h + [e])[d..] == h[d..] + [e];
  }

  /** When times never decrease, what pruning leaves is exactly the part of the history inside the window. */
  lemma PrunedIsRecent<T>(log: seq<Stamped<T>>, h: seq<Stamped<T>>, seen: seq<real>, now: real, window: real)
    requires WindowOf(log, h, seen, window) && InOrder(h)
    requires forall j :: 0 <= j < |seen| ==> seen[j] <= now
    ensures Pruned(log, now, window) == Recent(h, now, window)
  {
    var n := PrunedIsSuffix(log, now, window);
    var d := |h| - |log| + n;
    assert log[n..] == h[d..];
    forall i | 0 <= i < d ensures now - h[i].time > window {
      if i < |h| - |log| {
        assert Outdated(h[i].time, seen, window);
      } else {
        assert h[i] == log[i - (|h| - |log|)];
      }
    }
    if n < |log| {
      assert log[n] == h[d];
    }
    RecentIsSuffix(h, d, now, window);
  }

  lemma {:induction false} RecentIsSuffix<T>(h: seq<Stamped<T>>, d: nat, now: real, window: real)
    requires d <= |h|
    requires forall i :: 0 <= i < d ==> now - h[i].time > window
    requires forall i :: d <= i < |h| ==> now - h[i].time <= window
    ensures Recent(h, now, window) == h[d..]
  {
    if h == [] {
    } else if d == |h| {
      RecentIsSuffix(h[..|h| - 1], d - 1, now, window);
    } else {
      RecentIsSuffix(h[..|h| - 1], d, now, window);
      assert h[d..] == h[..|h| - 1][d..] + [h[|h| - 1]];
    }
  }

  // ---------------------------------------------------------------- counting

  lemma {:induction false} MatchesInSplit<T>(h: seq<Stamped<T>>, n: nat, item: T, lo: real, hi: real)
    requires n <= |h|
    ensures MatchesIn(h, item, lo, hi) == MatchesIn(h[..n], item, lo, hi) + MatchesIn(h[n..], item, lo, hi)
  {
    if n == |h| {
      assert h[..n] == h;
    } else {
      var front := h[..|h| - 1];
      MatchesInSplit(front, n, item, lo, hi);
      assert front[..n] == h[..n];
      assert h[n..][..|h[n..]| - 1] == front[n..];
    }
  }

  lemma {:induction false} MatchesInNone<T>(h: seq<Stamped<T>>, item: T, lo: real, hi: real)
    requires forall i :: 0 <= i < |h| ==> !(lo <= h[i].time <= hi)
    ensures MatchesIn(h, item, lo, hi) == 0
  {
    if h != [] {
      MatchesInNone(h[..|h| - 1], item, lo, hi);
    }
  }

  lemma {:induction false} MatchesInAtMost<T>(h: seq<Stamped<T>>, item: T, lo: real, hi: real)
    ensures MatchesIn(h, item, lo, hi) <= Matches(h, item)
  {
    if h != [] {
      MatchesInAtMost(h[..|h| - 1], item, lo, hi);
    }
  }

  lemma {:induction false} MatchesAtMost<T>(h: seq<Stamped<T>>, item: T)
    ensures Matches(h, item) <= |h|
  {
    if h != [] {
      MatchesAtMost(h[..|h| - 1], item);
    }
  }

  /**
   The log forgets nothing that matters: if no time seen lies more than a window after `lo`, every
   entry of the history in the interval from `lo` is still there to be counted.
   */
  lemma WindowCountsAll<T>(log: seq<Stamped<T>>, h: seq<Stamped<T>>, seen: seq<real>, window: real, item: T, lo: real,
                           hi: real)
    requires WindowOf(log, h, seen, window)
    requires forall j :: 0 <= j < |seen| ==> seen[j] <= lo + window
    ensures MatchesIn(h, item, lo, hi) <= Matches(log, item)
  {
    var d := |h| - |log|;
    MatchesInSplit(h, d, item, lo, hi);
    forall i | 0 <= i < d ensures !(lo <= h[..d][i].time <= hi) {
      assert Outdated(h[i].time, seen, window);
    }
    MatchesInNone(h[..d], item, lo, hi);
    MatchesInAtMost(log, item, lo, hi);
  }

  /** Counting in the recent part of a history is counting in the interval that ends now. */
  lemma {:induction false} RecentMatches<T>(h: seq<Stamped<T>>, now: real, window: real, item: T)
    requires forall i :: 0 <= i < |h| ==> h[i].time <= now
    ensures Matches(Recent(h, now, window), item) == MatchesIn(h, item, now - window, now)
  {
    if h != [] {
      var front, e := h[..|h| - 1], h[|h| - 1];
      RecentMatches(front, now, window, item);
      if now - e.time <= window {
        assert Recent(h, now, window)[..|Recent(h, now, window)| - 1] == Recent(front, now, window);
      } else {
        assert Recent(h, now, window) == Recent(front, now, window);
      }
    }
  }
}

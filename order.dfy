/** The nearest-neighbour tour heuristic of lib/tour/order.ts.

    `matrix[i][j]` is the travel time in minutes from position `i` to
    position `j`; a negative entry (the routing client's -1) and a cell the
    row does not have (JavaScript reads `undefined`, which fails `>= 0`) are
    both unusable. */
module TourOrder {
  import opened Wrappers
  import opened Lists

  type Matrix = seq<seq<real>>

  /** `matrix[i][j] >= 0` in JavaScript: the cell exists and is not negative. */
  predicate Usable(m: Matrix, i: nat, j: nat) {
    i < |m| && j < |m[i]| && m[i][j] >= 0.0
  }

  /** The positions already placed in the first `k` entries of `order`. */
  function Visited(order: seq<nat>, k: nat): set<nat>
    requires k <= |order|
  {
    Values(order[..k])
  }

  /** The set of values a list holds. */
  function Values(s: seq<nat>): set<nat> {
    set x | x in s
  }

  /** `order` lists every position `0..n-1` exactly once. */
  predicate IsPermutationOfRange(order: seq<nat>, n: nat) {
    |order| == n && Distinct(order) && forall k :: 0 <= k < |order| ==> order[k] < n
  }

  /** Some unvisited position is reachable from `current` by a usable entry. */
  predicate HasUsableUnvisited(m: Matrix, n: nat, visited: set<nat>, current: nat) {
    exists j :: 0 <= j < n && j !in visited && Usable(m, current, j)
  }

  /** `next` is the unvisited position with the smallest usable entry from
      `current`; among equal entries it is the lowest index, because the scan
      goes upwards and replaces the candidate only on a strict `<`. */
  predicate IsNearest(m: Matrix, n: nat, visited: set<nat>, current: nat, next: nat) {
    && next < n && next !in visited && Usable(m, current, next)
    && forall j :: 0 <= j < n && j !in visited && Usable(m, current, j) ==>
         m[current][next] <= m[current][j] && (j < next ==> m[current][next] < m[current][j])
  }

  /** `next` is the lowest-numbered unvisited position. */
  predicate IsLowestUnvisited(n: nat, visited: set<nat>, next: nat) {
    next < n && next !in visited && forall j :: 0 <= j < next ==> j in visited
  }

  /** One step of the heuristic: the nearest usable unvisited position, or,
      when the row offers none, the first unvisited one. */
  predicate GreedyStep(m: Matrix, n: nat, visited: set<nat>, current: nat, next: nat) {
    if HasUsableUnvisited(m, n, visited, current) then IsNearest(m, n, visited, current, next)
    else IsLowestUnvisited(n, visited, next)
  }

  /** What `nearestNeighborOrder(matrix, start)` returns for a non-empty
      matrix: a permutation of the positions that begins at `start` and whose
      every later entry is the greedy choice from the entry before it. */
  predicate IsNearestNeighborOrder(m: Matrix, start: nat, order: seq<nat>) {
    && IsPermutationOfRange(order, |m|)
    && (|m| > 0 ==> order[0] == start)
    && forall k :: 1 <= k < |order| ==> GreedyStep(m, |m|, Visited(order, k), order[k - 1], order[k])
  }

  /** `nearestNeighborOrder(matrix, startIndex)`: an empty matrix gives the
      empty order, a start outside `[0, n)` throws 'Invalid startIndex', and
      otherwise the result is the greedy permutation described above. */
  method NearestNeighborOrder(m: Matrix, startIndex: int) returns (r: Result<seq<nat>, string>)
    ensures |m| == 0 ==> r == Success([])
    ensures |m| > 0 && !(0 <= startIndex < |m|) ==> r == Failure("Invalid startIndex")
    ensures |m| > 0 && 0 <= startIndex < |m| ==> r.Success? && IsNearestNeighborOrder(m, startIndex, r.value)
  {
    var n := |m|;
    if n == 0 {
      return Success([]);
    }
    if startIndex < 0 || startIndex >= n {
      return Failure("Invalid startIndex");
    }
    var visited := new bool[n](_ => false);
    var order: seq<nat> := [startIndex];
    visited[startIndex] := true;
    var current: nat := startIndex;
    for step := 1 to n
      invariant |order| == step && order[0] == startIndex && current == order[step - 1]
      invariant Distinct(order)
      invariant forall k :: 0 <= k < |order| ==> order[k] < n
      invariant forall j :: 0 <= j < n ==> (visited[j] <==> j in order)
      invariant forall k :: 1 <= k < step ==> GreedyStep(m, n, Visited(order, k), order[k - 1], order[k])
    {
      ghost var seen := Visited(order, step);
      assert order[..step] == order;
      assert forall j :: 0 <= j < n ==> (visited[j] <==> j in seen);
      var next := ScanNearest(m, visited, current, seen);
      if next == -1 {
        UnvisitedExists(order, n);
        ghost var free :| 0 <= free < n && free !in order;
        assert visited.Length == n && !visited[free];
        // disconnected: take the lowest remaining position
        next := FirstUnvisited(visited);
        assert !visited[free];
        assert !(forall i :: 0 <= i < visited.Length ==> visited[i]);
        assert next != -1;
        assert IsLowestUnvisited(n, seen, next);
      }
      assert GreedyStep(m, n, seen, current, next);
      visited[next] := true;
      GreedyExtend(m, order, next);
      order := order + [next];
      current := next;
    }
    return Success(order);
  }

  /** The inner scan (lines 13-20): the unvisited position with the
      smallest usable entry in row `current`, the first one on ties, or -1
      when the row offers none. `seen` is the set the `visited` flags mark. */
  method ScanNearest(m: Matrix, visited: array<bool>, current: nat, ghost seen: set<nat>) returns (next: int)
    requires current < |m| && visited.Length == |m|
    requires forall j :: 0 <= j < |m| ==> (visited[j] <==> j in seen)
    ensures -1 <= next < |m|
    ensures next == -1 <==> !HasUsableUnvisited(m, |m|, seen, current)
    ensures next >= 0 ==> IsNearest(m, |m|, seen, current, next)
  {
    var n := |m|;
    // `best` plays the part of JavaScript's Infinity while `next` is still -1.
    next := -1;
    var best := 0.0;
    for j := 0 to n
      invariant -1 <= next < n
      invariant next == -1 <==> forall i :: 0 <= i < j ==> visited[i] || !Usable(m, current, i)
      invariant next >= 0 ==> next < j && !visited[next] && Usable(m, current, next) && best == m[current][next]
      invariant next >= 0 ==> forall i :: 0 <= i < j && !visited[i] && Usable(m, current, i) ==>
                  best <= m[current][i] && (i < next ==> best < m[current][i])
    {
      if !visited[j] && j < |m[current]| && m[current][j] >= 0.0 && (next == -1 || m[current][j] < best) {
        best := m[current][j];
        next := j;
      }
    }
    if next == -1 {
      assert forall i :: 0 <= i < n && i !in seen ==> !Usable(m, current, i);
    }
  }

  /** The fallback scan: the first index whose `visited` flag is clear, or -1. */
  method FirstUnvisited(visited: array<bool>) returns (next: int)
    ensures -1 <= next < visited.Length
    ensures next == -1 <==> forall i :: 0 <= i < visited.Length ==> visited[i]
    ensures next >= 0 ==> !visited[next] && forall i :: 0 <= i < next ==> visited[i]
  {
    for j := 0 to visited.Length
      invariant forall i :: 0 <= i < j ==> visited[i]
    {
      if !visited[j] {
        return j;
      }
    }
    return -1;
  }

  /** Appending keeps the visited set of every earlier prefix. */
  lemma VisitedPrefixes(order: seq<nat>, next: nat)
    ensures forall k :: 0 <= k <= |order| ==> Visited(order + [next], k) == Visited(order, k)
  {
    forall k | 0 <= k <= |order| ensures Visited(order + [next], k) == Visited(order, k) {
      assert (order + [next])[..k] == order[..k];
    }
  }

  /** Appending a greedy choice keeps every step of the order greedy. */
  lemma GreedyExtend(m: Matrix, order: seq<nat>, next: nat)
    requires |order| >= 1
    requires forall k :: 1 <= k < |order| ==> GreedyStep(m, |m|, Visited(order, k), order[k - 1], order[k])
    requires GreedyStep(m, |m|, Visited(order, |order|), order[|order| - 1], next)
    ensures var longer := order + [next];
      forall k :: 1 <= k < |longer| ==> GreedyStep(m, |m|, Visited(longer, k), longer[k - 1], longer[k])
  {
    var longer := order + [next];
    VisitedPrefixes(order, next);
    forall k | 1 <= k < |longer|
      ensures GreedyStep(m, |m|, Visited(longer, k), longer[k - 1], longer[k])
    {
      assert longer[k - 1] == order[k - 1];
      if k < |order| {
        assert longer[k] == order[k];
      }
    }
  }

  /** Pigeonhole: distinct values drawn from `pool` are no more than the pool. */
  lemma {:induction false} DistinctWithin(s: seq<nat>, pool: set<nat>)
    requires Distinct(s)
    requires forall k :: 0 <= k < |s| ==> s[k] in pool
    ensures |s| <= |pool|
  {
    if s != [] {
      forall k | 0 <= k < |s| - 1 ensures s[1..][k] in pool - {s[0]} {
        assert s[1..][k] == s[k + 1] != s[0];
      }
      DistinctWithin(s[1..], pool - {s[0]});
    }
  }

  /** The positions `0..n-1`, in order. */
  function Positions(n: nat): (r: seq<nat>)
    ensures |r| == n && Distinct(r)
    ensures forall k :: 0 <= k < n ==> r[k] == k
  {
    seq(n, k => k)
  }

  /** A list has no more distinct values than entries. */
  lemma {:induction false} ValuesAtMostLength(s: seq<nat>)
    ensures |Values(s)| <= |s|
  {
    if s != [] {
      var tail := s[1..];
      ValuesAtMostLength(tail);
      assert s == [s[0]] + tail;
      assert forall x :: x in s <==> x == s[0] || x in tail;
      assert Values(s) == Values(tail) + {s[0]};
      if s[0] in Values(tail) {
        assert Values(s) == Values(tail);
      } else {
        assert |Values(s)| == |Values(tail)| + 1;
      }
    }
  }

  /** Pigeonhole: fewer than `n` distinct positions below `n` miss one. */
  lemma UnvisitedExists(order: seq<nat>, n: nat)
    requires |order| < n
    ensures exists j :: 0 <= j < n && j !in order
  {
    if forall j :: 0 <= j < n ==> j in order {
      var used := Values(order);
      ValuesAtMostLength(order);
      forall k | 0 <= k < n ensures Positions(n)[k] in used {
        assert Positions(n)[k] == k && k in order;
      }
      DistinctWithin(Positions(n), used);
      assert false;
    }
  }

  /** Pigeonhole the other way: `n` distinct positions below `n` are all of them. */
  lemma PermutationCovers(order: seq<nat>, n: nat)
    requires IsPermutationOfRange(order, n)
    ensures forall j :: 0 <= j < n ==> j in order
  {
    if exists j :: 0 <= j < n && j !in order {
      var j :| 0 <= j < n && j !in order;
      var pool := Values(Positions(n)) - {j};
      assert Positions(n)[j] == j;
      ValuesAtMostLength(Positions(n));
      forall k | 0 <= k < n ensures order[k] in pool {
        assert Positions(n)[order[k]] == order[k];
      }
      DistinctWithin(order, pool);
      assert false;
    }
  }

  /** The greedy rule leaves no choice: from the same visited set and the
      same current position there is one next position. */
  lemma GreedyStepUnique(m: Matrix, n: nat, visited: set<nat>, current: nat, a: nat, b: nat)
    requires GreedyStep(m, n, visited, current, a) && GreedyStep(m, n, visited, current, b)
    ensures a == b
  {
  }

  /** So the heuristic is a function of the matrix and the start: two orders
      that both meet its description are the same list. */
  lemma NearestNeighborOrderUnique(m: Matrix, start: nat, o1: seq<nat>, o2: seq<nat>)
    requires IsNearestNeighborOrder(m, start, o1) && IsNearestNeighborOrder(m, start, o2)
    ensures o1 == o2
  {
    var n := |m|;
    var k := 0;
    while k < n
      invariant 0 <= k <= n
      invariant o1[..k] == o2[..k]
    {
      if k > 0 {
        assert Visited(o1, k) == Visited(o2, k);
        assert o1[k - 1] == o1[..k][k - 1] == o2[..k][k - 1] == o2[k - 1];
        GreedyStepUnique(m, n, Visited(o1, k), o1[k - 1], o1[k], o2[k]);
      }
      assert o1[..k + 1] == o1[..k] + [o1[k]];
      assert o2[..k + 1] == o2[..k] + [o2[k]];
      k := k + 1;
    }
    assert o1 == o1[..n] && o2 == o2[..n];
  }

  /** The triangle `[[0,1,5],[1,0,1],[5,1,0]]` from 0 is toured as `[0,1,2]`. */
  lemma TriangleOrder(order: seq<nat>)
    requires IsNearestNeighborOrder([[0.0, 1.0, 5.0], [1.0, 0.0, 1.0], [5.0, 1.0, 0.0]], 0, order)
    ensures order == [0, 1, 2]
  {
    var m: Matrix := [[0.0, 1.0, 5.0], [1.0, 0.0, 1.0], [5.0, 1.0, 0.0]];
    assert Visited(order, 1) == {0} by { assert order[..1] == [0]; }
    assert Usable(m, 0, 1);
    assert GreedyStep(m, 3, {0}, 0, order[1]);
    assert order[1] == 1 by {
      assert HasUsableUnvisited(m, 3, {0}, 0);
      assert IsNearest(m, 3, {0}, 0, order[1]);
    }
    assert Visited(order, 2) == {0, 1} by { assert order[..2] == [0, 1]; }
    assert Usable(m, 1, 2);
    assert GreedyStep(m, 3, {0, 1}, 1, order[2]);
    assert order[2] == 2;
    assert order == [order[0], order[1], order[2]];
  }

  /** With unknown (-1) entries the heuristic still places all three
      positions: from 0 it goes to 2 (the only usable entry), then falls
      back to the remaining position 1. */
  lemma DisconnectedOrder(order: seq<nat>)
    requires IsNearestNeighborOrder([[0.0, -1.0, 2.0], [-1.0, 0.0, -1.0], [2.0, -1.0, 0.0]], 0, order)
    ensures order == [0, 2, 1]
  {
    var m: Matrix := [[0.0, -1.0, 2.0], [-1.0, 0.0, -1.0], [2.0, -1.0, 0.0]];
    assert Visited(order, 1) == {0} by { assert order[..1] == [0]; }
    assert Usable(m, 0, 2);
    assert GreedyStep(m, 3, {0}, 0, order[1]);
    assert order[1] == 2;
    assert Visited(order, 2) == {0, 2} by { assert order[..2] == [0, 2]; }
    assert !Usable(m, 2, 1);
    assert !HasUsableUnvisited(m, 3, {0, 2}, 2);
    assert GreedyStep(m, 3, {0, 2}, 2, order[2]);
    assert order[2] == 1;
    assert order == [order[0], order[1], order[2]];
  }
}

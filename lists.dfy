/** Array helpers used by the TypeScript code (`filter`, `new Set`, `indexOf`,
    `splice`), written once over sequences. */
module Lists {

  /** No element occurs twice. */
  predicate Distinct<T(==)>(s: seq<T>) {
    forall i, j :: 0 <= i < j < |s| ==> s[i] != s[j]
  }

  /** `s.filter((y) => y !== x)`. */
  function Without<T(==)>(s: seq<T>, x: T): (r: seq<T>)
    ensures x !in r
    ensures forall i :: 0 <= i < |r| ==> r[i] in s && r[i] != x
    ensures forall i :: 0 <= i < |s| && s[i] != x ==> s[i] in r
    ensures |r| <= |s|
    ensures x !in s ==> r == s
  {
    if s == [] then []
    else if s[0] == x then Without(s[1..], x)
    else [s[0]] + Without(s[1..], x)
  }

  /** Removing `x` from a list with `x` appended is removing it from the list. */
  lemma {:induction false} WithoutSnoc<T>(s: seq<T>, x: T)
    ensures Without(s + [x], x) == Without(s, x)
  {
    if s != [] {
      assert (s + [x])[1..] == s[1..] + [x];
      WithoutSnoc(s[1..], x);
    }
  }

  /** `t` is obtained from `s` by deleting some elements, keeping the order of the rest. */
  predicate IsSubsequence<T(==)>(t: seq<T>, s: seq<T>) {
    if t == [] then true
    else if s == [] then false
    else if t[0] == s[0] then IsSubsequence(t[1..], s[1..])
    else IsSubsequence(t, s[1..])
  }

  lemma {:induction false} WithoutIsSubsequence<T>(s: seq<T>, x: T)
    ensures IsSubsequence(Without(s, x), s)
  {
    if s != [] {
      WithoutIsSubsequence(s[1..], x);
      if s[0] != x {
        assert Without(s, x) == [s[0]] + Without(s[1..], x);
        assert Without(s, x)[1..] == Without(s[1..], x);
      } else {
        SubsequenceOfTail(Without(s[1..], x), s);
      }
    }
  }

  lemma {:induction false} SubsequenceOfTail<T>(t: seq<T>, s: seq<T>)
    requires s != [] && IsSubsequence(t, s[1..])
    ensures IsSubsequence(t, s)
  {
    if t != [] && t[0] == s[0] {
      SubsequenceDropHead(t, s[1..]);
    }
  }

  lemma {:induction false} SubsequenceDropHead<T>(t: seq<T>, s: seq<T>)
    requires t != [] && IsSubsequence(t, s)
    ensures IsSubsequence(t[1..], s)
  {
    if s != [] {
      if t[0] == s[0] {
        if t[1..] != [] {
          SubsequenceOfTail(t[1..], s);
        }
      } else {
        SubsequenceDropHead(t, s[1..]);
        if t[1..] != [] {
          SubsequenceOfTail(t[1..], s);
        }
      }
    }
  }

  /** Removing an element that `s` holds once leaves a list one shorter. */
  lemma {:induction false} WithoutDistinct<T>(s: seq<T>, x: T)
    requires Distinct(s)
    ensures Distinct(Without(s, x))
    ensures x in s ==> |Without(s, x)| == |s| - 1
  {
    if s != [] {
      WithoutDistinct(s[1..], x);
      if s[0] != x {
        var r := Without(s, x);
        assert r == [s[0]] + Without(s[1..], x);
        forall i, j | 0 <= i < j < |r| ensures r[i] != r[j] {
          if i == 0 {
            assert r[j] in Without(s[1..], x);
            assert s[0] !in s[1..];
          }
        }
      } else {
        assert x !in s[1..];
      }
    }
  }

  /** `Array.from(new Set(s))`: every element of `s`, each once. */
  function Dedup<T(==)>(s: seq<T>): (r: seq<T>)
    ensures Distinct(r)
    ensures forall i :: 0 <= i < |r| ==> r[i] in s
    ensures forall i :: 0 <= i < |s| ==> s[i] in r
    ensures |r| <= |s|
  {
    DedupFrom(s, [])
  }

  function DedupFrom<T(==)>(s: seq<T>, seen: seq<T>): (r: seq<T>)
    requires Distinct(seen)
    ensures Distinct(r)
    ensures forall i :: 0 <= i < |r| ==> r[i] in seen || r[i] in s
    ensures forall i :: 0 <= i < |s| ==> s[i] in r
    ensures forall i :: 0 <= i < |seen| ==> seen[i] in r
    ensures |seen| <= |r| <= |seen| + |s|
    ensures r[..|seen|] == seen
    decreases |s|
  {
    if s == [] then seen
    else if s[0] in seen then
      var r := DedupFrom(s[1..], seen);
      assert forall i :: 1 <= i < |s| ==> s[i] == s[1..][i - 1];
      r
    else
      var seen' := seen + [s[0]];
      assert Distinct(seen');
      var r := DedupFrom(s[1..], seen');
      assert forall i :: 1 <= i < |s| ==> s[i] == s[1..][i - 1];
      assert seen'[|seen|] == s[0];
      assert forall i :: 0 <= i < |seen| ==> seen'[i] == seen[i];
      assert r[..|seen|] == r[..|seen'|][..|seen|];
      r
  }

  /** A list without duplicates is left as it is. */
  lemma {:induction false} DedupOfDistinct<T>(s: seq<T>)
    requires Distinct(s)
    ensures Dedup(s) == s
  {
    DedupFromDistinct(s, []);
  }

  lemma {:induction false} DedupFromDistinct<T>(s: seq<T>, seen: seq<T>)
    requires Distinct(seen) && Distinct(seen + s)
    ensures DedupFrom(s, seen) == seen + s
    decreases |s|
  {
    if s != [] {
      assert (seen + s)[|seen|] == s[0];
      assert s[0] !in seen by {
        forall i | 0 <= i < |seen| ensures seen[i] != s[0] {
          assert (seen + s)[i] == seen[i];
        }
      }
      assert seen + s == (seen + [s[0]]) + s[1..];
      assert Distinct(seen + [s[0]]) by {
        forall i, j | 0 <= i < j < |seen| + 1 ensures (seen + [s[0]])[i] != (seen + [s[0]])[j] {
          assert (seen + [s[0]])[i] == (seen + s)[i];
          assert (seen + [s[0]])[j] == (seen + s)[j];
        }
      }
      DedupFromDistinct(s[1..], seen + [s[0]]);
    }
  }

  /** `s.indexOf(x)`: the first position of `x`, or -1. */
  function IndexOf<T(==)>(s: seq<T>, x: T): (r: int)
    ensures -1 <= r < |s|
    ensures r == -1 <==> x !in s
    ensures r >= 0 ==> s[r] == x && forall i :: 0 <= i < r ==> s[i] != x
  {
    if s == [] then -1
    else if s[0] == x then 0
    else
      var k := IndexOf(s[1..], x);
      if k == -1 then -1 else k + 1
  }

  /** `const x = a.splice(from, 1)[0]; a.splice(to, 0, x)`: the element at
      `from` is taken out and put back at index `to` of the shortened list. */
  function Move<T>(s: seq<T>, from: nat, to: nat): (r: seq<T>)
    requires from < |s| && to < |s|
  {
    var rest := s[..from] + s[from + 1..];
    rest[..to] + [s[from]] + rest[to..]
  }

  /** Pointwise reading of `Move`: the moved element lands at `to`, the ones
      between `from` and `to` shift by one towards `from`, the others stay. */
  lemma MoveAt<T>(s: seq<T>, from: nat, to: nat, k: nat)
    requires from < |s| && to < |s| && k < |s|
    ensures |Move(s, from, to)| == |s|
    ensures Move(s, from, to)[k] ==
      if k == to then s[from]
      else if from < to && from <= k < to then s[k + 1]
      else if to < from && to < k <= from then s[k - 1]
      else s[k]
  {
  }

  /** A move keeps every element, with its multiplicity. */
  lemma MovePermutes<T>(s: seq<T>, from: nat, to: nat)
    requires from < |s| && to < |s|
    ensures multiset(Move(s, from, to)) == multiset(s)
  {
    var rest := s[..from] + s[from + 1..];
    assert s == s[..from] + [s[from]] + s[from + 1..];
    assert multiset(s) == multiset(s[..from]) + multiset{s[from]} + multiset(s[from + 1..]);
    assert multiset(rest) == multiset(s[..from]) + multiset(s[from + 1..]);
    assert rest == rest[..to] + rest[to..];
    assert multiset(rest) == multiset(rest[..to]) + multiset(rest[to..]);
    assert multiset(Move(s, from, to)) == multiset(rest[..to]) + multiset{s[from]} + multiset(rest[to..]);
    assert multiset(Move(s, from, to)) == multiset(rest) + multiset{s[from]};
  }

  /** A move onto its own position changes nothing. */
  lemma MoveInPlace<T>(s: seq<T>, i: nat)
    requires i < |s|
    ensures Move(s, i, i) == s
  {
    assert s == s[..i] + [s[i]] + s[i + 1..];
  }

  /** Equal multisets keep "no duplicates". */
  lemma DistinctPermutation<T>(s: seq<T>, t: seq<T>)
    requires multiset(s) == multiset(t) && Distinct(s)
    ensures Distinct(t)
  {
    forall i, j | 0 <= i < j < |t| ensures t[i] != t[j] {
      if t[i] == t[j] {
        var x := t[i];
        assert t == t[..i] + [t[i]] + t[i + 1..j] + [t[j]] + t[j + 1..];
        assert multiset(t)[x] >= 2;
        DistinctCount(s, x);
      }
    }
  }

  lemma {:induction false} DistinctCount<T>(s: seq<T>, x: T)
    requires Distinct(s)
    ensures multiset(s)[x] <= 1
  {
    if s != [] {
      DistinctCount(s[1..], x);
      assert s == [s[0]] + s[1..];
      if s[0] == x {
        assert x !in s[1..];
      }
    }
  }

  /** Filtering out the head of a list without duplicates leaves its tail. */
  lemma WithoutHead<T>(s: seq<T>)
    requires s != [] && Distinct(s)
    ensures Without(s, s[0]) == s[1..]
  {
    assert s[0] !in s[1..] by {
      forall k | 0 <= k < |s| - 1 ensures s[1..][k] != s[0] {
        assert s[1..][k] == s[k + 1];
      }
    }
  }

  /** `new Set(s).size === s.length` holds exactly when `s` has no duplicates. */
  lemma DedupKeepsLength<T>(s: seq<T>)
    ensures |Dedup(s)| == |s| <==> Distinct(s)
  {
    if Distinct(s) {
      DedupOfDistinct(s);
    } else {
      assert [] + s == s;
      DedupFromShorter(s, []);
    }
  }

  lemma {:induction false} DedupFromShorter<T>(s: seq<T>, seen: seq<T>)
    requires Distinct(seen) && !Distinct(seen + s)
    ensures |DedupFrom(s, seen)| < |seen| + |s|
    decreases |s|
  {
    if s == [] {
      assert false;
    } else if s[0] !in seen {
      var seen' := seen + [s[0]];
      assert seen' + s[1..] == seen + s;
      assert Distinct(seen') by {
        forall i, j | 0 <= i < j < |seen'| ensures seen'[i] != seen'[j] {
          if j == |seen| {
            assert seen'[i] == seen[i];
          }
        }
      }
      DedupFromShorter(s[1..], seen');
    }
  }

  /** A prefix of a subsequence is a subsequence. */
  lemma {:induction false} SubsequencePrefix<T>(t: seq<T>, s: seq<T>, k: nat)
    requires k <= |t| && IsSubsequence(t, s)
    ensures IsSubsequence(t[..k], s)
    decreases |s|
  {
    if k > 0 {
      if s == [] {
        assert false;
      } else if t[0] == s[0] {
        SubsequencePrefix(t[1..], s[1..], k - 1);
        assert t[..k][1..] == t[1..][..k - 1];
      } else {
        SubsequencePrefix(t, s[1..], k);
      }
    }
  }
}

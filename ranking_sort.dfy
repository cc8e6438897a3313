/** The three-level standings order: more points first, then the larger set
    difference, then more games won, ties kept in input order.

    The client sorts with `Array.prototype.sort`, which is stable, and its comparator
    (`pointsB - pointsA`, then `setDiffB - setDiffA`, then `gamesWonB - gamesWonA`)
    is a total preorder. Any stable sort then yields the same sequence, so a stable
    insertion sort is an exact model; `SortIsTheOnlyStableOrder` proves that the
    sorted, stable permutation is unique. */
module RankingSort {

  /** What a participant is ranked by. */
  datatype Rank = Rank(points: int, setDiff: int, gamesWon: int) {
    function Plus(other: Rank): Rank {
      Rank(points + other.points, setDiff + other.setDiff, gamesWon + other.gamesWon)
    }
  }

  const Zero := Rank(0, 0, 0)

  /** `x` ranks no lower than `y` (the comparator returns a value <= 0 for (x, y)). */
  predicate AtLeast(x: Rank, y: Rank) {
    x.points > y.points
    || (x.points == y.points
        && (x.setDiff > y.setDiff || (x.setDiff == y.setDiff && x.gamesWon >= y.gamesWon)))
  }

  lemma AtLeastTotalPreorder(x: Rank, y: Rank, z: Rank)
    ensures AtLeast(x, x)
    ensures AtLeast(x, y) || AtLeast(y, x)
    ensures AtLeast(x, y) && AtLeast(y, z) ==> AtLeast(x, z)
    ensures AtLeast(x, y) && AtLeast(y, x) ==> x == y
  {
  }

  /** Ordered: every element ranks no lower than every later one. */
  ghost predicate SortedByRank<T>(s: seq<T>, key: T -> Rank) {
    forall i, j :: 0 <= i < j < |s| ==> AtLeast(key(s[i]), key(s[j]))
  }

  /** The elements whose rank is exactly `k`, in order. */
  function WithRank<T>(s: seq<T>, key: T -> Rank, k: Rank): seq<T>
    decreases |s|
  {
    if |s| == 0 then []
    else if key(s[0]) == k then [s[0]] + WithRank(s[1..], key, k)
    else WithRank(s[1..], key, k)
  }

  /** Stable: the elements of each rank appear in the same relative order as in `s`. */
  ghost predicate StableFor<T>(r: seq<T>, s: seq<T>, key: T -> Rank) {
    forall k :: WithRank(r, key, k) == WithRank(s, key, k)
  }

  /** Insert `x` before the first element it ranks at least as high as. */
  function Insert<T>(x: T, s: seq<T>, key: T -> Rank): seq<T>
    decreases |s|
  {
    if |s| == 0 then [x]
    else if AtLeast(key(x), key(s[0])) then [x] + s
    else [s[0]] + Insert(x, s[1..], key)
  }

  /** The stable descending sort by rank. */
  function SortByRank<T>(s: seq<T>, key: T -> Rank): seq<T>
    decreases |s|
  {
    if |s| == 0 then [] else Insert(s[0], SortByRank(s[1..], key), key)
  }

  lemma {:induction false} InsertPermutes<T>(x: T, s: seq<T>, key: T -> Rank)
    ensures multiset(Insert(x, s, key)) == multiset(s) + multiset{x}
    decreases |s|
  {
    if |s| > 0 && !AtLeast(key(x), key(s[0])) {
      InsertPermutes(x, s[1..], key);
      assert s == [s[0]] + s[1..];
    }
  }

  lemma {:induction false} InsertSorted<T>(x: T, s: seq<T>, key: T -> Rank)
    requires SortedByRank(s, key)
    ensures SortedByRank(Insert(x, s, key), key)
    decreases |s|
  {
    if |s| > 0 {
      if AtLeast(key(x), key(s[0])) {
        forall j | 0 <= j < |s| ensures AtLeast(key(x), key(s[j])) {
          AtLeastTotalPreorder(key(x), key(s[0]), key(s[j]));
        }
        ConsSorted(x, s, key);
      } else {
        var tail := Insert(x, s[1..], key);
        InsertSorted(x, s[1..], key);
        InsertPermutes(x, s[1..], key);
        AtLeastTotalPreorder(key(x), key(s[0]), key(s[0]));
        forall j | 0 <= j < |tail| ensures AtLeast(key(s[0]), key(tail[j])) {
          assert tail[j] in multiset(tail);
          if tail[j] != x {
            assert tail[j] in multiset(s[1..]);
            var m :| 0 <= m < |s[1..]| && s[1..][m] == tail[j];
            assert s[m + 1] == tail[j];
          }
        }
        ConsSorted(s[0], tail, key);
      }
    }
  }

  /** An element ranking no lower than every element of a sorted sequence can lead it. */
  lemma ConsSorted<T>(h: T, t: seq<T>, key: T -> Rank)
    requires SortedByRank(t, key)
    requires forall j :: 0 <= j < |t| ==> AtLeast(key(h), key(t[j]))
    ensures SortedByRank([h] + t, key)
  {
    var r := [h] + t;
    forall i, j | 0 <= i < j < |r| ensures AtLeast(key(r[i]), key(r[j])) {
      if i > 0 {
        assert r[i] == t[i - 1] && r[j] == t[j - 1];
      } else {
        assert r[j] == t[j - 1];
      }
    }
  }

  lemma {:induction false} InsertKeepsTies<T>(x: T, s: seq<T>, key: T -> Rank, k: Rank)
    requires SortedByRank(s, key)
    ensures WithRank(Insert(x, s, key), key, k)
         == if key(x) == k then [x] + WithRank(s, key, k) else WithRank(s, key, k)
    decreases |s|
  {
    if |s| > 0 {
      var r := Insert(x, s, key);
      if AtLeast(key(x), key(s[0])) {
        assert r[1..] == s;
      } else {
        InsertKeepsTies(x, s[1..], key, k);
        assert r[1..] == Insert(x, s[1..], key);
        assert s == [s[0]] + s[1..];
        if key(x) == k {
          assert key(s[0]) != k by {
            if key(s[0]) == k { AtLeastTotalPreorder(key(x), key(x), key(x)); }
          }
        }
      }
    }
  }

  /** The sort returns a permutation of its input, ordered by rank, with equal ranks
      in input order. */
  lemma SortByRankCorrect<T>(s: seq<T>, key: T -> Rank)
    ensures multiset(SortByRank(s, key)) == multiset(s)
    ensures |SortByRank(s, key)| == |s|
    ensures SortedByRank(SortByRank(s, key), key)
    ensures StableFor(SortByRank(s, key), s, key)
  {
    SortPermutes(s, key);
    SortSorted(s, key);
    forall k ensures WithRank(SortByRank(s, key), key, k) == WithRank(s, key, k) {
      SortKeepsTies(s, key, k);
    }
  }

  lemma {:induction false} SortPermutes<T>(s: seq<T>, key: T -> Rank)
    ensures multiset(SortByRank(s, key)) == multiset(s)
    ensures |SortByRank(s, key)| == |s|
    decreases |s|
  {
    if |s| > 0 {
      SortPermutes(s[1..], key);
      InsertPermutes(s[0], SortByRank(s[1..], key), key);
      assert s == [s[0]] + s[1..];
      assert |multiset(SortByRank(s, key))| == |multiset(s)|;
    }
  }

  lemma {:induction false} SortSorted<T>(s: seq<T>, key: T -> Rank)
    ensures SortedByRank(SortByRank(s, key), key)
    decreases |s|
  {
    if |s| > 0 {
      SortSorted(s[1..], key);
      InsertSorted(s[0], SortByRank(s[1..], key), key);
    }
  }

  lemma {:induction false} SortKeepsTies<T>(s: seq<T>, key: T -> Rank, k: Rank)
    ensures WithRank(SortByRank(s, key), key, k) == WithRank(s, key, k)
    decreases |s|
  {
    if |s| > 0 {
      SortKeepsTies(s[1..], key, k);
      SortSorted(s[1..], key);
      InsertKeepsTies(s[0], SortByRank(s[1..], key), key, k);
    }
  }

  lemma {:induction false} WithRankMember<T>(s: seq<T>, key: T -> Rank, x: T)
    ensures x in s <==> x in WithRank(s, key, key(x))
    decreases |s|
  {
    if |s| > 0 {
      WithRankMember(s[1..], key, x);
      assert x in s <==> x == s[0] || x in s[1..];
    }
  }

  lemma WithRankTail<T>(s: seq<T>, key: T -> Rank, k: Rank)
    requires |s| > 0
    ensures WithRank(s[1..], key, k)
         == if key(s[0]) == k then WithRank(s, key, k)[1..] else WithRank(s, key, k)
  {
  }

  /** Any ordering that is sorted by rank and keeps equal ranks in input order is
      the one `SortByRank` returns, whatever stable algorithm produced it. */
  lemma {:induction false} SortIsTheOnlyStableOrder<T>(r: seq<T>, s: seq<T>, key: T -> Rank)
    requires SortedByRank(r, key) && StableFor(r, s, key)
    ensures r == SortByRank(s, key)
  {
    SortByRankCorrect(s, key);
    SortedStableUnique(r, SortByRank(s, key), key);
  }

  lemma {:induction false} SortedStableUnique<T>(r1: seq<T>, r2: seq<T>, key: T -> Rank)
    requires SortedByRank(r1, key) && SortedByRank(r2, key)
    requires forall k :: WithRank(r1, key, k) == WithRank(r2, key, k)
    ensures r1 == r2
    decreases |r1| + |r2|
  {
    if |r1| == 0 && |r2| > 0 {
      WithRankMember(r2, key, r2[0]);
      assert false;
    } else if |r2| == 0 && |r1| > 0 {
      WithRankMember(r1, key, r1[0]);
      assert false;
    } else if |r1| > 0 {
      var a, b := r1[0], r2[0];
      WithRankMember(r1, key, b);
      WithRankMember(r2, key, a);
      WithRankMember(r2, key, b);
      WithRankMember(r1, key, a);
      assert a in r2;
      assert b in r1;
      var ia :| 0 <= ia < |r2| && r2[ia] == a;
      var ib :| 0 <= ib < |r1| && r1[ib] == b;
      assert AtLeast(key(a), key(b)) by {
        if ib > 0 { assert AtLeast(key(r1[0]), key(r1[ib])); }
        else { AtLeastTotalPreorder(key(a), key(a), key(a)); }
      }
      assert AtLeast(key(b), key(a)) by {
        if ia > 0 { assert AtLeast(key(r2[0]), key(r2[ia])); }
        else { AtLeastTotalPreorder(key(b), key(b), key(b)); }
      }
      AtLeastTotalPreorder(key(a), key(b), key(a));
      var m := key(a);
      assert WithRank(r1, key, m)[0] == a;
      assert WithRank(r2, key, m)[0] == b;
      forall k ensures WithRank(r1[1..], key, k) == WithRank(r2[1..], key, k) {
        WithRankTail(r1, key, k);
        WithRankTail(r2, key, k);
      }
      SortedStableUnique(r1[1..], r2[1..], key);
      assert r1 == [a] + r1[1..] && r2 == [b] + r2[1..];
    }
  }
}

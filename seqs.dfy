/** Sequence helpers: filtering, duplicate-freedom, first-appearance de-duplication
    and flattening. */
module Seqs {

  /** The elements of `s` that satisfy `keep`, in their original order
      (JavaScript `Array.prototype.filter`, Java `stream().filter`). */
  function Filter<T(!new)>(s: seq<T>, keep: T -> bool): (r: seq<T>)
    ensures |r| <= |s|
    ensures forall x :: x in r <==> x in s && keep(x)
    decreases |s|
  {
    if |s| == 0 then []
    else if keep(s[0]) then [s[0]] + Filter(s[1..], keep)
    else Filter(s[1..], keep)
  }

  /** Filtering distributes over concatenation. */
  lemma {:induction false} FilterAppend<T(!new)>(a: seq<T>, b: seq<T>, keep: T -> bool)
    ensures Filter(a + b, keep) == Filter(a, keep) + Filter(b, keep)
    decreases |a|
  {
    if |a| == 0 {
      assert a + b == b;
    } else {
      assert (a + b)[1..] == a[1..] + b;
      FilterAppend(a[1..], b, keep);
    }
  }

  /** Splitting by a predicate and by its negation loses and duplicates nothing. */
  lemma {:induction false} FilterPartition<T(!new)>(s: seq<T>, keep: T -> bool, drop: T -> bool)
    requires forall x :: drop(x) == !keep(x)
    ensures |Filter(s, keep)| + |Filter(s, drop)| == |s|
    ensures multiset(Filter(s, keep)) + multiset(Filter(s, drop)) == multiset(s)
    decreases |s|
  {
    if |s| > 0 {
      FilterPartition(s[1..], keep, drop);
      assert s == [s[0]] + s[1..];
    }
  }

  /** No element occurs twice. */
  predicate NoDup<T(==)>(s: seq<T>) {
    forall i, j :: 0 <= i < j < |s| ==> s[i] != s[j]
  }

  /** Removing every occurrence of one value keeps a duplicate-free sequence free of duplicates. */
  lemma {:induction false} FilterKeepsNoDup<T(!new)>(s: seq<T>, keep: T -> bool)
    requires NoDup(s)
    ensures NoDup(Filter(s, keep))
    decreases |s|
  {
    if |s| > 0 {
      FilterKeepsNoDup(s[1..], keep);
      assert s[0] !in s[1..] by {
        forall k | 0 <= k < |s[1..]| ensures s[1..][k] != s[0] {
          assert s[1..][k] == s[k + 1];
        }
      }
    }
  }

  /** The distinct elements of `s` in order of first appearance (the iteration order
      of a JavaScript `Set` filled from `s`). */
  function Dedup<T(==,!new)>(s: seq<T>): (r: seq<T>)
    ensures NoDup(r)
    ensures forall x :: x in r <==> x in s
    decreases |s|
  {
    if |s| == 0 then []
    else
      var d := Dedup(s[..|s| - 1]);
      var last := s[|s| - 1];
      assert forall x :: x in s <==> x in s[..|s| - 1] || x == last;
      if last in d then d else d + [last]
  }

  /** Appending one element to the input of `Dedup` appends it to the output unless
      it is already there. */
  lemma DedupSnoc<T(!new)>(s: seq<T>, x: T)
    ensures Dedup(s + [x]) == if x in Dedup(s) then Dedup(s) else Dedup(s) + [x]
  {
    assert (s + [x])[..|s|] == s;
  }

  lemma {:induction false} NoDupMultiplicity<T>(s: seq<T>, x: T)
    requires NoDup(s)
    ensures multiset(s)[x] <= 1
    decreases |s|
  {
    if |s| > 0 {
      NoDupMultiplicity(s[1..], x);
      assert s == [s[0]] + s[1..];
      assert s[0] !in s[1..] by {
        forall k | 0 <= k < |s[1..]| ensures s[1..][k] != s[0] { assert s[1..][k] == s[k + 1]; }
      }
    }
  }

  /** A permutation of a duplicate-free sequence is duplicate-free. */
  lemma PermutationKeepsNoDup<T>(a: seq<T>, b: seq<T>)
    requires NoDup(a) && multiset(a) == multiset(b)
    ensures NoDup(b)
  {
    forall i, j | 0 <= i < j < |b| ensures b[i] != b[j] {
      if b[i] == b[j] {
        assert b == b[..i] + [b[i]] + b[i + 1..j] + [b[j]] + b[j + 1..];
        assert multiset(b)[b[i]] >= 2;
        NoDupMultiplicity(a, b[i]);
        assert false;
      }
    }
  }

  /** Index of the first occurrence of `x` in `s`. */
  function FirstIndex<T(==)>(s: seq<T>, x: T): (k: nat)
    requires x in s
    ensures k < |s| && s[k] == x
    ensures forall j :: 0 <= j < k ==> s[j] != x
    decreases |s|
  {
    if s[0] == x then 0 else 1 + FirstIndex(s[1..], x)
  }

  lemma {:induction false} FirstIndexPrefix<T>(s: seq<T>, n: nat, x: T)
    requires n <= |s| && x in s[..n]
    ensures x in s && FirstIndex(s, x) == FirstIndex(s[..n], x)
  {
    var k := FirstIndex(s[..n], x);
    assert s[k] == x;
  }

  /** `Dedup` lists the distinct elements exactly in the order of their first appearance. */
  lemma {:induction false} DedupFirstAppearanceOrder<T(!new)>(s: seq<T>)
    ensures forall i, j :: 0 <= i < j < |Dedup(s)| ==>
      FirstIndex(s, Dedup(s)[i]) < FirstIndex(s, Dedup(s)[j])
    decreases |s|
  {
    if |s| > 0 {
      var init := s[..|s| - 1];
      var last := s[|s| - 1];
      var d := Dedup(init);
      DedupFirstAppearanceOrder(init);
      assert init == s[..|s| - 1];
      forall x | x in d ensures FirstIndex(s, x) == FirstIndex(init, x) {
        FirstIndexPrefix(s, |s| - 1, x);
      }
      if last !in d {
        assert last !in init;
        assert Dedup(s) == d + [last];
        assert forall y :: y in d + [last] ==> y in s;
        assert FirstIndex(s, last) == |s| - 1;
        forall i, j | 0 <= i < j < |d + [last]|
          ensures FirstIndex(s, (d + [last])[i]) < FirstIndex(s, (d + [last])[j])
        {
          if j < |d| {
            assert (d + [last])[i] == d[i] && (d + [last])[j] == d[j];
          } else {
            assert (d + [last])[i] == d[i];
            assert d[i] in d;
          }
        }
      }
    }
  }

  /** The concatenation of a sequence of sequences, front to back. */
  function Concat<T>(ss: seq<seq<T>>): (r: seq<T>)
    decreases |ss|
  {
    if |ss| == 0 then [] else Concat(ss[..|ss| - 1]) + ss[|ss| - 1]
  }

  lemma {:induction false} ConcatMember<T>(ss: seq<seq<T>>, x: T)
    ensures x in Concat(ss) <==> exists i :: 0 <= i < |ss| && x in ss[i]
    decreases |ss|
  {
    if |ss| > 0 {
      var init := ss[..|ss| - 1];
      ConcatMember(init, x);
      if x in Concat(ss) && x !in ss[|ss| - 1] {
        var i :| 0 <= i < |init| && x in init[i];
        assert ss[i] == init[i];
      }
      if (exists i :: 0 <= i < |ss| && x in ss[i]) && x !in ss[|ss| - 1] {
        var i :| 0 <= i < |ss| && x in ss[i];
        assert init[i] == ss[i];
      }
    }
  }

  lemma ConcatAppend<T>(ss: seq<seq<T>>, t: seq<T>)
    ensures Concat(ss + [t]) == Concat(ss) + t
  {
    assert (ss + [t])[..|ss|] == ss;
  }

  lemma AppendAssoc<T>(a: seq<T>, b: seq<T>, c: seq<T>)
    ensures (a + b) + c == a + (b + c)
  {
  }

  /** Moving the first `n` elements of the unconsumed rest into one more piece keeps
      pieces-then-rest equal to the whole. */
  lemma ConcatStep<T>(ss: seq<seq<T>>, rest: seq<T>, n: nat, whole: seq<T>)
    requires n <= |rest| && Concat(ss) + rest == whole
    ensures Concat(ss + [rest[..n]]) + rest[n..] == whole
  {
    var c, d := rest[..n], rest[n..];
    var front := Concat(ss);
    ConcatAppend(ss, c);
    assert rest == c + d;
    calc {
      Concat(ss + [c]) + d;
      (front + c) + d;
      front + (c + d);
      front + rest;
    }
  }

  /** Filtering by a predicate every element satisfies changes nothing. */
  lemma {:induction false} FilterKeepsAll<T(!new)>(s: seq<T>, keep: T -> bool)
    requires forall x :: x in s ==> keep(x)
    ensures Filter(s, keep) == s
    decreases |s|
  {
    if |s| > 0 {
      FilterKeepsAll(s[1..], keep);
      assert s == [s[0]] + s[1..];
    }
  }

  /** `s` without any occurrence of `v` (`s.filter(x => x !== v)`). */
  function Remove<T(==,!new)>(s: seq<T>, v: T): (r: seq<T>)
    ensures |r| <= |s|
    ensures forall x :: x in r <==> x in s && x != v
    decreases |s|
  {
    if |s| == 0 then []
    else if s[0] == v then Remove(s[1..], v)
    else [s[0]] + Remove(s[1..], v)
  }

  /** Removing a value drops exactly its occurrences. */
  lemma {:induction false} RemoveMultiset<T(!new)>(s: seq<T>, v: T)
    ensures multiset(Remove(s, v)) == multiset(s)[v := 0]
    decreases |s|
  {
    if |s| > 0 {
      RemoveMultiset(s[1..], v);
      assert s == [s[0]] + s[1..];
    }
  }

  lemma {:induction false} RemoveKeepsNoDup<T(!new)>(s: seq<T>, v: T)
    requires NoDup(s)
    ensures NoDup(Remove(s, v))
    decreases |s|
  {
    if |s| > 0 {
      RemoveKeepsNoDup(s[1..], v);
      assert s[0] !in s[1..] by {
        forall k | 0 <= k < |s[1..]| ensures s[1..][k] != s[0] {
          assert s[1..][k] == s[k + 1];
        }
      }
    }
  }

  /** Replacing one piece of a concatenation replaces its elements in the whole. */
  lemma {:induction false} ConcatUpdateMultiset<T>(ss: seq<seq<T>>, i: int, x: seq<T>)
    requires 0 <= i < |ss|
    ensures multiset(Concat(ss[i := x])) == multiset(Concat(ss)) - multiset(ss[i]) + multiset(x)
    decreases |ss|
  {
    var n := |ss| - 1;
    var ss' := ss[i := x];
    var front := multiset(Concat(ss[..n]));
    if i == n {
      assert ss'[..n] == ss[..n];
      assert multiset(Concat(ss)) == front + multiset(ss[n]);
      assert multiset(Concat(ss')) == front + multiset(x);
    } else {
      assert ss'[..n] == ss[..n][i := x];
      ConcatUpdateMultiset(ss[..n], i, x);
      ConcatContains(ss[..n], i);
      assert ss[..n][i] == ss[i];
      assert multiset(Concat(ss')) == multiset(Concat(ss[..n][i := x])) + multiset(ss[n]);
    }
  }

  lemma {:induction false} ConcatContains<T>(ss: seq<seq<T>>, i: int)
    requires 0 <= i < |ss|
    ensures multiset(ss[i]) <= multiset(Concat(ss))
    decreases |ss|
  {
    if i < |ss| - 1 {
      ConcatContains(ss[..|ss| - 1], i);
    }
  }

  /** Appending `x` to one part adds `x` once to the whole. */
  lemma ConcatAppendToPart<T>(ss: seq<seq<T>>, i: int, x: T)
    requires 0 <= i < |ss|
    ensures multiset(Concat(ss[i := ss[i] + [x]])) == multiset(Concat(ss)) + multiset{x}
  {
    ConcatContains(ss, i);
    ConcatUpdateMultiset(ss, i, ss[i] + [x]);
    assert multiset(ss[i] + [x]) == multiset(ss[i]) + multiset{x};
  }

  /** Removing `x` from a duplicate-free part that holds it takes `x` once from the whole. */
  lemma ConcatRemoveFromPart<T(!new)>(ss: seq<seq<T>>, i: int, x: T)
    requires 0 <= i < |ss| && x in ss[i] && NoDup(ss[i])
    ensures multiset(Concat(ss[i := Remove(ss[i], x)])) + multiset{x} == multiset(Concat(ss))
  {
    RemoveMultiset(ss[i], x);
    NoDupMultiplicity(ss[i], x);
    assert multiset(ss[i]) == multiset(Remove(ss[i], x)) + multiset{x};
    ConcatContains(ss, i);
    ConcatUpdateMultiset(ss, i, Remove(ss[i], x));
  }

  /** Taking one more element of `s` after `a`. */
  lemma SnocSlice<T>(a: seq<T>, s: seq<T>, i: int)
    requires 0 <= i < |s|
    ensures a + s[..i + 1] == (a + s[..i]) + [s[i]]
  {
    assert s[..i + 1] == s[..i] + [s[i]];
  }
}

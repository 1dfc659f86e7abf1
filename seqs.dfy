// Facts about sequences of voxels used throughout the model: absence of
// duplicates, removal at an index and the pigeonhole argument behind dense leaves.

module VoxSeqs {

  /** No element occurs twice. */
  ghost predicate NoDup<T(!new)>(s: seq<T>) {
    forall x :: multiset(s)[x] <= 1
  }

  /** The distinct elements of a sequence. */
  ghost function Elements<T(!new)>(s: seq<T>): set<T> {
    set x | x in s
  }

  /** The sequence with the element at index i taken out (memmove over it). */
  function RemoveAt<T>(s: seq<T>, i: nat): (r: seq<T>)
    requires i < |s|
    ensures |r| == |s| - 1
    ensures multiset(r) == multiset(s) - multiset{s[i]}
    ensures forall j :: 0 <= j < i ==> r[j] == s[j]
    ensures forall j :: i <= j < |r| ==> r[j] == s[j + 1]
  {
    assert s == s[..i] + [s[i]] + s[i + 1..];
    s[..i] + s[i + 1..]
  }

  lemma NoDupIndex<T(!new)>(s: seq<T>, i: nat, j: nat)
    requires NoDup(s) && i < |s| && j < |s| && i != j
    ensures s[i] != s[j]
  {
    var lo, hi := if i < j then i else j, if i < j then j else i;
    assert s == s[..lo] + [s[lo]] + s[lo + 1..hi] + [s[hi]] + s[hi + 1..];
    assert multiset(s)[s[lo]] >= 1 + multiset([s[hi]])[s[lo]];
  }

  /** Pairwise distinct elements mean no duplicates. */
  lemma {:induction false} DistinctNoDup<T(!new)>(s: seq<T>)
    requires forall i, j :: 0 <= i < j < |s| ==> s[i] != s[j]
    ensures NoDup(s)
    decreases |s|
  {
    if |s| > 0 {
      var s' := s[..|s| - 1];
      DistinctNoDup(s');
      assert s == s' + [s[|s| - 1]];
      NoDupAppend(s', s[|s| - 1]);
    }
  }

  /** A duplicate-free sequence has as many distinct elements as it is long. */
  lemma {:induction false} NoDupCard<T(!new)>(s: seq<T>)
    requires NoDup(s)
    ensures |Elements(s)| == |s|
    decreases |s|
  {
    if |s| > 0 {
      var x := s[|s| - 1];
      var s' := s[..|s| - 1];
      assert s == s' + [x];
      NoDupSuffixOf(s', x);
      NoDupCard(s');
      assert Elements(s) == Elements(s') + {x};
    }
  }

  lemma NoDupSuffixOf<T(!new)>(s: seq<T>, x: T)
    requires NoDup(s + [x])
    ensures NoDup(s) && x !in s
  {
    assert multiset(s + [x]) == multiset(s) + multiset{x};
    forall y ensures multiset(s)[y] <= 1 {
      assert multiset(s)[y] <= multiset(s + [x])[y];
    }
    assert multiset(s + [x])[x] == multiset(s)[x] + 1;
  }

  lemma NoDupAppend<T(!new)>(s: seq<T>, x: T)
    requires NoDup(s) && x !in s
    ensures NoDup(s + [x])
  {
    assert multiset(s + [x]) == multiset(s) + multiset{x};
  }

  lemma NoDupConcat<T(!new)>(a: seq<T>, b: seq<T>)
    requires NoDup(a) && NoDup(b)
    requires forall x :: x in a ==> x !in b
    ensures NoDup(a + b)
  {
    assert multiset(a + b) == multiset(a) + multiset(b);
    forall x ensures multiset(a + b)[x] <= 1 {
      if x in a { assert x !in multiset(b); }
    }
  }

  lemma NoDupRemove<T(!new)>(s: seq<T>, i: nat)
    requires NoDup(s) && i < |s|
    ensures NoDup(RemoveAt(s, i)) && s[i] !in RemoveAt(s, i)
  {
    var r := RemoveAt(s, i);
    assert multiset(r)[s[i]] == 0;
  }

  lemma NoDupSub<T(!new)>(s: seq<T>, lo: nat, hi: nat)
    requires NoDup(s) && lo <= hi <= |s|
    ensures NoDup(s[lo..hi])
  {
    assert s == s[..lo] + s[lo..hi] + s[hi..];
    assert multiset(s) == multiset(s[..lo]) + multiset(s[lo..hi]) + multiset(s[hi..]);
    forall y ensures multiset(s[lo..hi])[y] <= 1 {
      assert multiset(s[lo..hi])[y] <= multiset(s)[y];
    }
  }

  /** A sequence whose multiset lies within that of a duplicate-free one is duplicate-free too. */
  lemma NoDupWithin<T(!new)>(a: seq<T>, b: seq<T>)
    requires NoDup(b) && multiset(a) <= multiset(b)
    ensures NoDup(a) && forall x :: x in a ==> x in b
  {
    forall x ensures multiset(a)[x] <= 1 {
      assert multiset(a)[x] <= multiset(b)[x];
    }
    forall x | x in a ensures x in b {
      assert x in multiset(a);
    }
  }

  /**
   * A permutation that fixes every position outside [lo, hi) leaves the two
   * ends equal and permutes the slice [lo, hi).
   */
  lemma SliceFrame<T>(s: seq<T>, t: seq<T>, lo: nat, hi: nat)
    requires lo <= hi <= |s| == |t| && multiset(s) == multiset(t)
    requires forall j :: 0 <= j < lo || hi <= j < |s| ==> s[j] == t[j]
    ensures s[..lo] == t[..lo] && s[hi..] == t[hi..]
    ensures multiset(s[lo..hi]) == multiset(t[lo..hi])
  {
    assert s[..lo] == t[..lo];
    assert s[hi..] == t[hi..];
    ThreeParts(s, lo, hi);
    ThreeParts(t, lo, hi);
    var ms, mt := multiset(s[lo..hi]), multiset(t[lo..hi]);
    var ends := multiset(s[..lo]) + multiset(s[hi..]);
    assert ms + ends == mt + ends;
    forall x ensures ms[x] == mt[x] {
      assert (ms + ends)[x] == (mt + ends)[x];
    }
  }

  /** The multiset of s is that of its three slices at lo and hi. */
  lemma ThreeParts<T>(s: seq<T>, lo: nat, hi: nat)
    requires lo <= hi <= |s|
    ensures multiset(s) == multiset(s[lo..hi]) + (multiset(s[..lo]) + multiset(s[hi..]))
  {
    assert s == s[..lo] + s[lo..hi] + s[hi..];
  }

  lemma InRemoved<T(!new)>(a: seq<T>, x: T, b: seq<T>, j: nat)
    requires NoDup(a + [x]) && j < |b| && b[j] == x
    requires forall y :: y in a + [x] ==> y in b
    ensures forall y :: y in a ==> y in RemoveAt(b, j)
  {
    NoDupSuffixOf(a, x);
    forall y | y in a ensures y in RemoveAt(b, j) {
      assert y in a + [x];
      assert y in multiset(b);
      assert y != x;
      assert y in multiset(RemoveAt(b, j));
    }
  }

  /**
   * Pigeonhole: a duplicate-free sequence of at least |b| elements, all of which
   * occur in the duplicate-free b, holds exactly the elements of b.
   */
  lemma {:induction false} Pigeonhole<T(!new)>(a: seq<T>, b: seq<T>)
    requires NoDup(a) && NoDup(b)
    requires forall x :: x in a ==> x in b
    requires |a| >= |b|
    ensures multiset(a) == multiset(b)
    decreases |a|
  {
    if |a| == 0 {
      assert b == [];
    } else {
      var x := a[|a| - 1];
      var a' := a[..|a| - 1];
      assert a == a' + [x];
      NoDupSuffixOf(a', x);
      assert x in b;
      var j :| 0 <= j < |b| && b[j] == x;
      InRemoved(a', x, b, j);
      NoDupRemove(b, j);
      Pigeonhole(a', RemoveAt(b, j));
    }
  }
}

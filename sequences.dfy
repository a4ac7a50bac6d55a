/** Order-preserving partition of a sequence, the shape produced by
    `Collectors.partitioningBy` and by `filter(...).collect(toList())`,
    together with the facts about it that the join-reorder helpers rely on. */
module Sequences {

  /** No element occurs twice. */
  predicate NoDuplicates<T(==)>(s: seq<T>) {
    forall i, j :: 0 <= i < j < |s| ==> s[i] != s[j]
  }

  /** `a` can be obtained from `b` by deleting elements (greedy matching). */
  predicate IsSubsequence<T(==)>(a: seq<T>, b: seq<T>)
    decreases |b|
  {
    if a == [] then true
    else if b == [] then false
    else if a[0] == b[0] then IsSubsequence(a[1..], b[1..])
    else IsSubsequence(a, b[1..])
  }

  /** The two lists of a `Map<Boolean, List<T>>` built by `partitioningBy`:
      both keys are always present, `yes` under `true`, `no` under `false`. */
  datatype Split<T> = Split(yes: seq<T>, no: seq<T>)

  /** `yes` and `no` split `s` by `key`: each side satisfies (resp. fails) the key,
      each keeps the relative order of `s`, and together they hold every element
      of `s` exactly as often as `s` does. */
  ghost predicate PartitionedBy<T>(s: seq<T>, key: T -> bool, yes: seq<T>, no: seq<T>) {
    && (forall i :: 0 <= i < |yes| ==> key(yes[i]))
    && (forall i :: 0 <= i < |no| ==> !key(no[i]))
    && IsSubsequence(yes, s)
    && IsSubsequence(no, s)
    && multiset(yes) + multiset(no) == multiset(s)
  }

  /** Stable partition of `s` by `key`. */
  function Partition<T(==)>(s: seq<T>, key: T -> bool): (r: Split<T>)
    ensures PartitionedBy(s, key, r.yes, r.no)
    ensures |r.yes| + |r.no| == |s|
  {
    if s == [] then Split([], [])
    else
      var rest := Partition(s[1..], key);
      PartitionStep(s, key, rest.yes, rest.no);
      if key(s[0]) then Split([s[0]] + rest.yes, rest.no)
      else Split(rest.yes, [s[0]] + rest.no)
  }

  /** Putting the head of `s` on the side its key selects extends a split of the tail. */
  lemma PartitionStep<T>(s: seq<T>, key: T -> bool, yes: seq<T>, no: seq<T>)
    requires s != []
    requires PartitionedBy(s[1..], key, yes, no)
    ensures key(s[0]) ==> PartitionedBy(s, key, [s[0]] + yes, no)
    ensures !key(s[0]) ==> PartitionedBy(s, key, yes, [s[0]] + no)
  {
    var x, t := s[0], s[1..];
    assert s == [x] + t;
    assert multiset(s) == multiset([x]) + multiset(t);
    if key(x) {
      assert ([x] + yes)[1..] == yes;
      assert no == [] || no[0] != x;
    } else {
      assert ([x] + no)[1..] == no;
      assert yes == [] || yes[0] != x;
    }
  }

  /** A subsequence holds no element more often than the sequence it comes from. */
  lemma {:induction false} SubsequenceMultiset<T>(a: seq<T>, b: seq<T>)
    requires IsSubsequence(a, b)
    ensures multiset(a) <= multiset(b)
    decreases |b|
  {
    if a == [] {
    } else if b == [] {
    } else if a[0] == b[0] {
      SubsequenceMultiset(a[1..], b[1..]);
      assert a == [a[0]] + a[1..];
      assert b == [b[0]] + b[1..];
    } else {
      SubsequenceMultiset(a, b[1..]);
      assert b == [b[0]] + b[1..];
    }
  }

  /** `PartitionedBy` pins the partition down: the only lists that split `s` by
      `key` are those `Partition` computes. */
  lemma {:induction false} PartitionUnique<T>(s: seq<T>, key: T -> bool, yes: seq<T>, no: seq<T>)
    requires PartitionedBy(s, key, yes, no)
    ensures yes == Partition(s, key).yes && no == Partition(s, key).no
  {
    if s == [] {
      assert |multiset(yes)| == 0 && |multiset(no)| == 0;
    } else {
      var x, t := s[0], s[1..];
      assert s == [x] + t;
      assert x in multiset(s);
      if key(x) {
        assert x !in no;
        assert x in multiset(yes);
        assert no == [] || no[0] != x;
        assert IsSubsequence(no, t);
        if yes[0] != x {
          assert IsSubsequence(yes, t);
          SubsequenceMultiset(yes, t);
          SubsequenceMultiset(no, t);
          assert false;
        }
        assert yes == [x] + yes[1..];
        assert multiset(yes) == multiset([x]) + multiset(yes[1..]);
        assert multiset(s) == multiset([x]) + multiset(t);
        MultisetCancel(x, multiset(yes[1..]) + multiset(no), multiset(t));
        PartitionUnique(t, key, yes[1..], no);
      } else {
        assert x !in yes;
        assert x in multiset(no);
        assert yes == [] || yes[0] != x;
        assert IsSubsequence(yes, t);
        if no[0] != x {
          assert IsSubsequence(no, t);
          SubsequenceMultiset(yes, t);
          SubsequenceMultiset(no, t);
          assert false;
        }
        assert no == [x] + no[1..];
        assert multiset(no) == multiset([x]) + multiset(no[1..]);
        assert multiset(s) == multiset([x]) + multiset(t);
        MultisetCancel(x, multiset(yes) + multiset(no[1..]), multiset(t));
        PartitionUnique(t, key, yes, no[1..]);
      }
    }
  }

  /** Removing one occurrence of the same element from both sides keeps them equal. */
  lemma MultisetCancel<T>(x: T, a: multiset<T>, b: multiset<T>)
    requires multiset{x} + a == multiset{x} + b
    ensures a == b
  {
    forall z ensures a[z] == b[z] {
      assert (multiset{x} + a)[z] == (multiset{x} + b)[z];
    }
  }

  /** Both sides of a split hold only elements of `s`. */
  lemma PartitionedElements<T>(s: seq<T>, key: T -> bool, yes: seq<T>, no: seq<T>)
    requires PartitionedBy(s, key, yes, no)
    ensures forall x :: x in yes ==> x in s
    ensures forall x :: x in no ==> x in s
  {
    forall x | x in yes ensures x in s {
      assert multiset(s)[x] == multiset(yes)[x] + multiset(no)[x];
    }
    forall x | x in no ensures x in s {
      assert multiset(s)[x] == multiset(yes)[x] + multiset(no)[x];
    }
  }

  /** An element of `s` lands on the side its key selects. */
  lemma PartitionedMembership<T>(s: seq<T>, key: T -> bool, yes: seq<T>, no: seq<T>, x: T)
    requires PartitionedBy(s, key, yes, no)
    requires x in s
    ensures key(x) ==> x in yes
    ensures !key(x) ==> x in no
  {
    assert x in multiset(s);
    assert x in multiset(yes) || x in multiset(no);
  }

  /** Each side of a split holds an element exactly as often as `s` does when
      the key sends it there, and never otherwise. */
  lemma PartitionedCounts<T>(s: seq<T>, key: T -> bool, yes: seq<T>, no: seq<T>, x: T)
    requires PartitionedBy(s, key, yes, no)
    ensures multiset(yes)[x] == if key(x) then multiset(s)[x] else 0
    ensures multiset(no)[x] == if key(x) then 0 else multiset(s)[x]
  {
    assert multiset(s)[x] == multiset(yes)[x] + multiset(no)[x];
    if key(x) {
      assert x !in no;
    } else {
      assert x !in yes;
    }
  }

  /** When every element passes the key, nothing is filtered out. */
  lemma {:induction false} PartitionAllKept<T>(s: seq<T>, key: T -> bool)
    requires forall i :: 0 <= i < |s| ==> key(s[i])
    ensures Partition(s, key).yes == s
    ensures Partition(s, key).no == []
  {
    if s != [] {
      assert key(s[0]);
      PartitionAllKept(s[1..], key);
      assert s == [s[0]] + s[1..];
    }
  }

  /** A sequence without duplicates has as many distinct elements as it is long. */
  lemma {:induction false} DistinctCardinality<T>(s: seq<T>)
    requires NoDuplicates(s)
    ensures |set x | x in s| == |s|
  {
    if s != [] {
      var t := s[1..];
      assert NoDuplicates(t) by {
        forall i, j | 0 <= i < j < |t| ensures t[i] != t[j] {
          assert t[i] == s[i + 1] && t[j] == s[j + 1];
        }
      }
      DistinctCardinality(t);
      assert (set x | x in s) == {s[0]} + (set x | x in t);
      assert s[0] !in (set x | x in t);
    }
  }

  /** In a sequence without duplicates each element occurs once. */
  lemma {:induction false} DistinctMultiplicity<T>(s: seq<T>, x: T)
    requires NoDuplicates(s)
    ensures multiset(s)[x] == if x in s then 1 else 0
  {
    if s != [] {
      var t := s[1..];
      assert NoDuplicates(t) by {
        forall i, j | 0 <= i < j < |t| ensures t[i] != t[j] {
          assert t[i] == s[i + 1] && t[j] == s[j + 1];
        }
      }
      DistinctMultiplicity(t, x);
      assert s == [s[0]] + t;
      assert s[0] !in t;
      assert multiset(s) == multiset{s[0]} + multiset(t);
    }
  }

  /** Two sequences without duplicates that hold the same elements are
      permutations of each other. */
  lemma DistinctSameElements<T>(a: seq<T>, b: seq<T>)
    requires NoDuplicates(a) && NoDuplicates(b)
    requires forall x :: x in a <==> x in b
    ensures multiset(a) == multiset(b)
  {
    forall x ensures multiset(a)[x] == multiset(b)[x] {
      DistinctMultiplicity(a, x);
      DistinctMultiplicity(b, x);
    }
  }

  /** A subset as large as its superset is the whole superset. */
  lemma SubsetSameCardinality<T>(a: set<T>, b: set<T>)
    requires a <= b && |a| == |b|
    ensures a == b
  {
    assert |b - a| == |b| - |a|;
  }
}

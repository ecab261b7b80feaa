/**
 Shape points and their ordering by sequence number: the `BySequence`
 comparator of validate.go and the `sort.Sort` call that applies it.

 Go's `sort.Sort` is not stable and `Less` compares sequence numbers strictly,
 so the relative order of points with equal sequence numbers is unspecified.
 Everything stated about a sorted shape therefore holds of ANY sorted
 permutation (`IsSortOf`); `InsertionSort` is one such permutation.
 */
module ShapeSort {

  /** `gtfs.ShapePoint`: a coordinate, a sequence number and an optional declared distance. */
  datatype ShapePoint = ShapePoint(
    lat: real,
    lon: real,
    sequence: int,
    hasDist: bool,
    distTraveled: real)

  /** `gtfs.Shape`: an identifier and its points in feed order. */
  datatype Shape = Shape(id: string, points: seq<ShapePoint>)

  /** `BySequence.Less`: strictly smaller sequence number. */
  predicate Less(a: ShapePoint, b: ShapePoint)
  {
    a.sequence < b.sequence
  }

  /** No point is `Less` than one before it. */
  predicate SortedBySequence(s: seq<ShapePoint>)
  {
    forall i, j :: 0 <= i < j < |s| ==> !Less(s[j], s[i])
  }

  /** `sorted` is a permutation of `input` in non-decreasing sequence order. */
  ghost predicate IsSortOf(sorted: seq<ShapePoint>, input: seq<ShapePoint>)
  {
    SortedBySequence(sorted) && multiset(sorted) == multiset(input)
  }

  /** Inserts p before the first point whose sequence number is not smaller. */
  function Insert(p: ShapePoint, s: seq<ShapePoint>): (r: seq<ShapePoint>)
    requires SortedBySequence(s)
    ensures SortedBySequence(r)
    ensures multiset(r) == multiset(s) + multiset{p}
  {
    if s == [] || p.sequence <= s[0].sequence then
      [p] + s
    else
      var rest := Insert(p, s[1..]);
      ConsSorted(s, p, rest);
      [s[0]] + rest
  }

  /** Putting the head of s back in front of p inserted into the tail keeps the order. */
  lemma ConsSorted(s: seq<ShapePoint>, p: ShapePoint, rest: seq<ShapePoint>)
    requires SortedBySequence(s) && s != [] && s[0].sequence < p.sequence
    requires SortedBySequence(rest) && multiset(rest) == multiset(s[1..]) + multiset{p}
    ensures SortedBySequence([s[0]] + rest)
    ensures multiset([s[0]] + rest) == multiset(s) + multiset{p}
  {
    assert s == [s[0]] + s[1..];
    forall j | 0 <= j < |rest|
      ensures s[0].sequence <= rest[j].sequence
    {
      assert rest[j] in multiset(rest);
      if rest[j] != p {
        assert rest[j] in multiset(s[1..]);
        var i :| 0 <= i < |s[1..]| && s[1..][i] == rest[j];
        assert s[i + 1] == rest[j];
      }
    }
    var r := [s[0]] + rest;
    forall i, j | 0 <= i < j < |r|
      ensures !Less(r[j], r[i])
    {
      if i > 0 {
        assert r[i] == rest[i - 1] && r[j] == rest[j - 1];
      } else {
        assert r[j] == rest[j - 1];
      }
    }
  }

  /** Sorts the points by sequence number. */
  function InsertionSort(s: seq<ShapePoint>): (r: seq<ShapePoint>)
    ensures IsSortOf(r, s)
  {
    if s == [] then []
    else
      assert s == [s[0]] + s[1..];
      Insert(s[0], InsertionSort(s[1..]))
  }

  /** The sequence numbers of a run of points, in order. */
  function Keys(s: seq<ShapePoint>): seq<int>
  {
    seq(|s|, i requires 0 <= i < |s| => s[i].sequence)
  }

  /** Taking the element at position j out of a sequence takes it out of the multiset. */
  lemma MultisetWithout<T>(s: seq<T>, j: nat)
    requires j < |s|
    ensures multiset(s) == multiset(s[..j] + s[j + 1..]) + multiset{s[j]}
  {
    assert s == s[..j] + [s[j]] + s[j + 1..];
  }

  lemma MultisetFirst<T>(s: seq<T>)
    requires s != []
    ensures multiset(s) == multiset(s[1..]) + multiset{s[0]}
  {
    assert s == [s[0]] + s[1..];
  }

  /** Adding the same element to two multisets keeps them apart or together. */
  lemma MultisetCancel<T>(a: multiset<T>, b: multiset<T>, x: T)
    requires a + multiset{x} == b + multiset{x}
    ensures a == b
  {
    forall y
      ensures a[y] == b[y]
    {
      assert (a + multiset{x})[y] == (b + multiset{x})[y];
    }
  }

  /** Taking one point out of a run takes its sequence number out of the keys. */
  lemma KeysWithout(b: seq<ShapePoint>, j: nat)
    requires j < |b|
    ensures multiset(Keys(b)) == multiset(Keys(b[..j] + b[j + 1..])) + multiset{b[j].sequence}
  {
    var k := Keys(b);
    assert Keys(b[..j] + b[j + 1..]) == k[..j] + k[j + 1..];
    MultisetWithout(k, j);
  }

  /** Points with the same multiset have the same multiset of sequence numbers. */
  lemma {:induction false} KeysMultiset(a: seq<ShapePoint>, b: seq<ShapePoint>)
    requires multiset(a) == multiset(b)
    ensures multiset(Keys(a)) == multiset(Keys(b))
    decreases |a|
  {
    if a == [] {
      assert b == [] by {
        assert |b| == |multiset(b)|;
      }
    } else {
      var x := a[0];
      assert x in multiset(b);
      var j :| 0 <= j < |b| && b[j] == x;
      var a', b' := a[1..], b[..j] + b[j + 1..];
      MultisetFirst(a);
      MultisetWithout(b, j);
      MultisetCancel(multiset(a'), multiset(b'), x);
      KeysMultiset(a', b');
      assert Keys(a') == Keys(a)[1..];
      MultisetFirst(Keys(a));
      KeysWithout(b, j);
    }
  }

  predicate NonDecreasing(s: seq<int>)
  {
    forall i, j :: 0 <= i < j < |s| ==> s[i] <= s[j]
  }

  /** Two non-decreasing arrangements of the same non-empty multiset start alike. */
  lemma SameLeast(a: seq<int>, b: seq<int>)
    requires NonDecreasing(a) && NonDecreasing(b)
    requires multiset(a) == multiset(b) && a != []
    ensures b != [] && a[0] == b[0]
  {
    assert a[0] in multiset(b);
    var i :| 0 <= i < |b| && b[i] == a[0];
    assert b[0] in multiset(a);
    var j :| 0 <= j < |a| && a[j] == b[0];
    assert b[0] <= b[i] && a[0] <= a[j];
  }

  /** Dropping the first element keeps the order. */
  lemma DropFirst(a: seq<int>)
    requires NonDecreasing(a) && a != []
    ensures NonDecreasing(a[1..])
  {
    var t := a[1..];
    forall i, j | 0 <= i < j < |t|
      ensures t[i] <= t[j]
    {
      assert t[i] == a[i + 1] && t[j] == a[j + 1];
    }
  }

  /** A multiset of integers has one non-decreasing arrangement. */
  lemma {:induction false} SortedIntsUnique(a: seq<int>, b: seq<int>)
    requires NonDecreasing(a) && NonDecreasing(b)
    requires multiset(a) == multiset(b)
    ensures a == b
    decreases |a|
  {
    if a != [] {
      SameLeast(a, b);
      DropFirst(a);
      DropFirst(b);
      MultisetFirst(a);
      MultisetFirst(b);
      MultisetCancel(multiset(a[1..]), multiset(b[1..]), a[0]);
      SortedIntsUnique(a[1..], b[1..]);
      assert |a| == |b|;
      forall k | 0 < k < |a|
        ensures a[k] == b[k]
      {
        assert a[k] == a[1..][k - 1] && b[k] == b[1..][k - 1];
      }
    } else {
      assert |b| == |multiset(b)|;
    }
  }

  /**
   However an unstable sort orders equal sequence numbers, the sequence number
   at each position of the result is the same.
   */
  lemma SortsAgreeOnSequence(a: seq<ShapePoint>, b: seq<ShapePoint>, input: seq<ShapePoint>)
    requires IsSortOf(a, input) && IsSortOf(b, input)
    ensures |a| == |b|
    ensures forall k :: 0 <= k < |a| ==> a[k].sequence == b[k].sequence
  {
    KeysMultiset(a, b);
    SortedIntsUnique(Keys(a), Keys(b));
    assert forall k :: 0 <= k < |a| ==> Keys(a)[k] == a[k].sequence;
  }
}

/** The newest-first ordering the submission listings use: the comparator
    `(o1, o2) -> o2.getTimestamp().compareTo(o1.getTimestamp())` over the
    `timestamp` text of each submission, handed to `List.sort`. */
module TimestampOrder {
  import opened Entities

  /** `String.compareTo`: the difference of the first pair of characters
      that differ, or else the difference of the lengths. */
  function CompareTo(a: string, b: string): int
  {
    if a == [] || b == [] then |a| - |b|
    else if a[0] != b[0] then a[0] as int - b[0] as int
    else CompareTo(a[1..], b[1..])
  }

  /** Swapping the operands negates the comparison. */
  lemma {:induction false} CompareToAntisymmetric(a: string, b: string)
    ensures CompareTo(a, b) == -CompareTo(b, a)
    decreases |a|
  {
    if a != [] && b != [] && a[0] == b[0] {
      CompareToAntisymmetric(a[1..], b[1..]);
    }
  }

  /** The comparison is zero exactly on equal texts. */
  lemma {:induction false} CompareToZero(a: string, b: string)
    ensures CompareTo(a, b) == 0 <==> a == b
    decreases |a|
  {
    if a != [] && b != [] && a[0] == b[0] {
      CompareToZero(a[1..], b[1..]);
      assert a == [a[0]] + a[1..] && b == [b[0]] + b[1..];
    }
  }

  /** "At most" in the comparison's order is transitive. */
  lemma {:induction false} CompareToTransitive(a: string, b: string, c: string)
    requires CompareTo(a, b) <= 0 && CompareTo(b, c) <= 0
    ensures CompareTo(a, c) <= 0
    decreases |a|
  {
    if a != [] && b != [] && c != [] && a[0] == b[0] && b[0] == c[0] {
      CompareToTransitive(a[1..], b[1..], c[1..]);
    }
  }

  /** `x` may stand before `y` in a newest-first listing: its timestamp is
      not smaller. */
  predicate Before(x: Submission, y: Submission)
  {
    CompareTo(y.timestamp, x.timestamp) <= 0
  }

  /** Any two submissions can be put in order. */
  lemma BeforeTotal(x: Submission, y: Submission)
    ensures Before(x, y) || Before(y, x)
  {
    CompareToAntisymmetric(x.timestamp, y.timestamp);
  }

  /** Every submission stands before every later one. */
  predicate NewestFirst(s: seq<Submission>)
  {
    forall i, j :: 0 <= i < j < |s| ==> Before(s[i], s[j])
  }

  /** `List.sort` with the newest-first comparator, as an insertion sort
      that swaps each new element towards the front while it is strictly
      newer than its left neighbour. The result is the same submissions,
      newest first. */
  method SortNewestFirst(a: array<Submission>)
    modifies a
    ensures NewestFirst(a[..])
    ensures multiset(a[..]) == multiset(old(a[..]))
  {
    var i := 0;
    while i < a.Length
      invariant 0 <= i <= a.Length
      invariant NewestFirst(a[..i])
      invariant multiset(a[..]) == multiset(old(a[..]))
    {
      InsertOne(a, i);
      i := i + 1;
    }
    assert a[..a.Length] == a[..];
  }

  /** `x` is strictly newer than `y`: the comparator puts it first and
      `List.sort` never swaps them back. */
  predicate Newer(x: Submission, y: Submission)
  {
    CompareTo(y.timestamp, x.timestamp) < 0
  }

  /** The first `n` elements are in order, except possibly around position
      `j`. */
  predicate OrderedExcept(s: seq<Submission>, n: int, j: int)
    requires n <= |s|
  {
    forall p, q :: 0 <= p < q < n && p != j && q != j ==> Before(s[p], s[q])
  }

  /** The element at `j` is strictly newer than every element after it,
      up to `n`. */
  predicate NewerThanRest(s: seq<Submission>, n: int, j: int)
    requires 0 <= j < n <= |s|
  {
    forall q :: j < q < n ==> Newer(s[j], s[q])
  }

  /** One swap of the insertion step moves the element being inserted one
      place to the left and keeps both facts about the prefix. */
  lemma SwapStep(s: seq<Submission>, n: int, j: int)
    requires 0 < j < n <= |s|
    requires OrderedExcept(s, n, j) && NewerThanRest(s, n, j)
    requires Newer(s[j], s[j - 1])
    ensures var t := s[j - 1 := s[j]][j := s[j - 1]];
      OrderedExcept(t, n, j - 1) && NewerThanRest(t, n, j - 1)
  {
    var t := s[j - 1 := s[j]][j := s[j - 1]];
    forall q | j - 1 < q < n
      ensures Newer(t[j - 1], t[q])
    {
    }
    forall p, q | 0 <= p < q < n && p != j - 1 && q != j - 1
      ensures Before(t[p], t[q])
    {
      if q == j {
        assert t[q] == s[j - 1] && t[p] == s[p];
      } else if p == j {
        assert t[p] == s[j - 1] && t[q] == s[q];
      } else {
        assert t[p] == s[p] && t[q] == s[q];
      }
    }
  }

  /** Once the element at `j` stands no newer than its left neighbour, the
      whole prefix is in order. */
  lemma InsertDone(s: seq<Submission>, n: int, j: int)
    requires 0 <= j < n <= |s|
    requires OrderedExcept(s, n, j) && NewerThanRest(s, n, j)
    requires j == 0 || Before(s[j - 1], s[j])
    ensures NewestFirst(s[..n])
  {
    forall q | j < q < n
      ensures Before(s[j], s[q])
    {
      CompareToAntisymmetric(s[j].timestamp, s[q].timestamp);
    }
    if j > 0 {
      forall p | 0 <= p < j - 1
        ensures Before(s[p], s[j])
      {
        CompareToTransitive(s[j].timestamp, s[j - 1].timestamp, s[p].timestamp);
      }
    }
    forall p, q | 0 <= p < q < n
      ensures Before(s[..n][p], s[..n][q])
    {
    }
  }

  /** Moves `a[i]` left into place among the sorted `a[..i]`. */
  method InsertOne(a: array<Submission>, i: int)
    requires 0 <= i < a.Length
    requires NewestFirst(a[..i])
    modifies a
    ensures NewestFirst(a[..i + 1])
    ensures multiset(a[..]) == multiset(old(a[..]))
  {
    var j := i;
    InsertStart(a[..], i);
    while j > 0 && CompareTo(a[j - 1].timestamp, a[j].timestamp) < 0
      invariant 0 <= j <= i
      invariant OrderedExcept(a[..], i + 1, j) && NewerThanRest(a[..], i + 1, j)
      invariant multiset(a[..]) == multiset(old(a[..]))
    {
      ghost var s := a[..];
      CompareToAntisymmetric(a[j - 1].timestamp, a[j].timestamp);
      SwapStep(s, i + 1, j);
      SwapKeepsMultiset(s, j);
      a[j - 1], a[j] := a[j], a[j - 1];
      assert a[..] == s[j - 1 := s[j]][j := s[j - 1]];
      j := j - 1;
    }
    if j > 0 {
      CompareToAntisymmetric(a[j - 1].timestamp, a[j].timestamp);
    }
    InsertDone(a[..], i + 1, j);
  }

  /** Before the first swap, the sorted prefix and the new element satisfy
      the loop's facts. */
  lemma InsertStart(s: seq<Submission>, i: int)
    requires 0 <= i < |s|
    requires NewestFirst(s[..i])
    ensures OrderedExcept(s, i + 1, i) && NewerThanRest(s, i + 1, i)
  {
    forall p, q | 0 <= p < q < i + 1 && p != i && q != i
      ensures Before(s[p], s[q])
    {
      assert s[..i][p] == s[p] && s[..i][q] == s[q];
    }
  }

  /** Exchanging two neighbours keeps the same elements. */
  lemma SwapKeepsMultiset(s: seq<Submission>, j: int)
    requires 0 < j < |s|
    ensures multiset(s[j - 1 := s[j]][j := s[j - 1]]) == multiset(s)
  {
  }
}

/** The comparator sort the price code relies on: a stable sort, as ECMAScript prescribes
    for `Array.prototype.sort`.  It is defined by feeding the elements in order into a sorted
    list, because that is also how the path search fills its observation lists. */
module StableSort {

  /** A consistent comparator: `le` is reflexive-total and transitive. */
  ghost predicate Comparator<T(!new)>(le: (T, T) -> bool) {
    && (forall x, y :: le(x, y) || le(y, x))
    && (forall x, y, z :: le(x, y) && le(y, z) ==> le(x, z))
  }

  ghost predicate Sorted<T>(s: seq<T>, le: (T, T) -> bool) {
    forall i, j | 0 <= i < j < |s| :: le(s[i], s[j])
  }

  /** Place `x` behind every element that does not have to follow it. */
  function Insert<T>(s: seq<T>, x: T, le: (T, T) -> bool): (r: seq<T>)
    ensures |r| == |s| + 1
  {
    if s == [] then [x]
    else if le(s[|s| - 1], x) then s + [x]
    else Insert(s[..|s| - 1], x, le) + [s[|s| - 1]]
  }

  function Sort<T>(s: seq<T>, le: (T, T) -> bool): (r: seq<T>)
    ensures |r| == |s|
  {
    if s == [] then [] else Insert(Sort(s[..|s| - 1], le), s[|s| - 1], le)
  }

  lemma {:induction false} InsertPermutes<T>(s: seq<T>, x: T, le: (T, T) -> bool)
    ensures multiset(Insert(s, x, le)) == multiset(s) + multiset{x}
  {
    if s != [] && !le(s[|s| - 1], x) {
      InsertPermutes(s[..|s| - 1], x, le);
      assert s == s[..|s| - 1] + [s[|s| - 1]];
    }
  }

  lemma {:induction false} SortPermutes<T>(s: seq<T>, le: (T, T) -> bool)
    ensures multiset(Sort(s, le)) == multiset(s)
  {
    if s != [] {
      SortPermutes(s[..|s| - 1], le);
      InsertPermutes(Sort(s[..|s| - 1], le), s[|s| - 1], le);
      assert s == s[..|s| - 1] + [s[|s| - 1]];
    }
  }

  lemma {:induction false} InsertKeepsSorted<T(!new)>(s: seq<T>, x: T, le: (T, T) -> bool)
    requires Comparator(le) && Sorted(s, le)
    ensures Sorted(Insert(s, x, le), le)
  {
    if s != [] && !le(s[|s| - 1], x) {
      var front, last := s[..|s| - 1], s[|s| - 1];
      InsertKeepsSorted(front, x, le);
      InsertPermutes(front, x, le);
      var r := Insert(front, x, le);
      forall i | 0 <= i < |r| ensures le(r[i], last) {
        assert r[i] in multiset(r);
        assert r[i] in multiset(front) || r[i] == x;
        if r[i] != x { assert r[i] in front; }
      }
    }
  }

  lemma {:induction false} SortSorts<T(!new)>(s: seq<T>, le: (T, T) -> bool)
    requires Comparator(le)
    ensures Sorted(Sort(s, le), le)
  {
    if s != [] {
      SortSorts(s[..|s| - 1], le);
      InsertKeepsSorted(Sort(s[..|s| - 1], le), s[|s| - 1], le);
    }
  }

  /** Sorting again changes nothing: what makes re-sorting an already sorted list harmless. */
  lemma {:induction false} SortOfSorted<T(!new)>(s: seq<T>, le: (T, T) -> bool)
    requires Sorted(s, le)
    ensures Sort(s, le) == s
  {
    if s != [] {
      SortOfSorted(s[..|s| - 1], le);
      assert s == s[..|s| - 1] + [s[|s| - 1]];
    }
  }

  /** The first `k` elements, or all of them when there are fewer. */
  function Take<T>(s: seq<T>, k: nat): (r: seq<T>) {
    if |s| <= k then s else s[..k]
  }

  /** Inserting into the kept part and cutting again keeps the same part as inserting into
      the whole list and cutting once: cutting early never changes who survives. */
  lemma {:induction false} InsertThenTake<T(!new)>(s: seq<T>, x: T, k: nat, le: (T, T) -> bool)
    requires Comparator(le) && Sorted(s, le) && 0 < k
    ensures Take(Insert(Take(s, k), x, le), k) == Take(Insert(s, x, le), k)
  {
    if |s| > k {
      var front := s[..|s| - 1];
      InsertThenTake(front, x, k, le);
      assert Take(front, k) == Take(s, k);
      DroppingTheLast(s, x, k, le);
    }
  }

  lemma InsertAtEnd<T>(s: seq<T>, x: T, le: (T, T) -> bool)
    requires s != [] && le(s[|s| - 1], x)
    ensures Insert(s, x, le) == s + [x]
  {
  }

  lemma DroppingTheLast<T(!new)>(s: seq<T>, x: T, k: nat, le: (T, T) -> bool)
    requires Comparator(le) && Sorted(s, le) && 0 < k < |s|
    ensures Take(Insert(s, x, le), k) == Take(Insert(s[..|s| - 1], x, le), k)
  {
    var front, last := s[..|s| - 1], s[|s| - 1];
    if le(last, x) {
      assert le(front[|front| - 1], last);
      InsertAtEnd(s, x, le);
      InsertAtEnd(front, x, le);
      assert (s + [x])[..k] == s[..k] == front[..k] == (front + [x])[..k];
    } else {
      var inserted := Insert(front, x, le);
      assert Insert(s, x, le) == inserted + [last];
      assert Take(inserted + [last], k) == inserted[..k];
    }
  }
}

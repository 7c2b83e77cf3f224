// The stable sort by a pair of reals that both coverage deciders start from.
module Sorting {

  type Key = (real, real)

  predicate Precedes(a: Key, b: Key) {
    a.0 < b.0 || (a.0 == b.0 && a.1 <= b.1)
  }

  ghost predicate SortedBy<T>(s: seq<T>, key: T -> Key) {
    forall i, j | 0 <= i < j < |s| :: Precedes(key(s[i]), key(s[j]))
  }

  // Inserts x behind every element that does not come after it.
  function Insert<T>(s: seq<T>, x: T, key: T -> Key): (r: seq<T>) {
    if s == [] then [x]
    else if Precedes(key(s[|s| - 1]), key(x)) then s + [x]
    else Insert(s[..|s| - 1], x, key) + [s[|s| - 1]]
  }

  function Sort<T>(s: seq<T>, key: T -> Key): (r: seq<T>) {
    if s == [] then [] else Insert(Sort(s[..|s| - 1], key), s[|s| - 1], key)
  }

  lemma {:induction false} InsertKeepsOrder<T(!new)>(s: seq<T>, x: T, key: T -> Key)
    requires SortedBy(s, key)
    ensures SortedBy(Insert(s, x, key), key)
    ensures forall y :: y in Insert(s, x, key) <==> y in s || y == x
    ensures |Insert(s, x, key)| == |s| + 1
  {
    if s != [] {
      var init, last := s[..|s| - 1], s[|s| - 1];
      assert s == init + [last];
      InsertKeepsOrder(init, x, key);
      if !Precedes(key(last), key(x)) {
        forall y | y in Insert(init, x, key)
          ensures Precedes(key(y), key(last))
        {
          assert y in init || y == x;
          if y in init {
            var j :| 0 <= j < |init| && init[j] == y;
            assert s[j] == y;
          }
        }
      }
    }
  }

  lemma {:induction false} SortIsOrdered<T(!new)>(s: seq<T>, key: T -> Key)
    ensures SortedBy(Sort(s, key), key)
    ensures forall y :: y in Sort(s, key) <==> y in s
    ensures |Sort(s, key)| == |s|
  {
    if s != [] {
      var init, last := s[..|s| - 1], s[|s| - 1];
      assert s == init + [last];
      SortIsOrdered(init, key);
      InsertKeepsOrder(Sort(init, key), last, key);
    }
  }

  // The members that satisfy p, in their order.
  ghost function Those<T>(s: seq<T>, p: T -> bool): seq<T> {
    if s == [] then []
    else
      var rest := Those(s[..|s| - 1], p);
      if p(s[|s| - 1]) then rest + [s[|s| - 1]] else rest
  }

  lemma {:induction false} InsertIsStable<T>(s: seq<T>, x: T, key: T -> Key, p: T -> bool, k: Key)
    requires forall y | p(y) :: key(y) == k
    ensures Those(Insert(s, x, key), p) == Those(s + [x], p)
    ensures multiset(Insert(s, x, key)) == multiset(s) + multiset{x}
  {
    assert (s + [x])[..|s|] == s;
    if s != [] && !Precedes(key(s[|s| - 1]), key(x)) {
      var init, last := s[..|s| - 1], s[|s| - 1];
      assert s == init + [last];
      InsertIsStable(init, x, key, p, k);
      var front := Insert(init, x, key);
      assert (front + [last])[..|front|] == front;
      assert (init + [x])[..|init|] == init;
      assert !(p(last) && p(x));
    }
  }

  // Sorting rearranges, and keeps the order of the elements of one key.
  lemma {:induction false} SortIsStable<T(!new)>(s: seq<T>, key: T -> Key, p: T -> bool, k: Key)
    requires forall y | p(y) :: key(y) == k
    ensures Those(Sort(s, key), p) == Those(s, p)
    ensures multiset(Sort(s, key)) == multiset(s)
  {
    if s != [] {
      var init, last := s[..|s| - 1], s[|s| - 1];
      assert s == init + [last];
      SortIsStable(init, key, p, k);
      InsertIsStable(Sort(init, key), last, key, p, k);
      var sorted := Sort(init, key);
      assert (sorted + [last])[..|sorted|] == sorted;
    }
  }

  // The first of them is the first member of the whole that satisfies p.
  lemma {:induction false} FirstOfThose<T>(s: seq<T>, p: T -> bool, i: nat)
    requires i < |s| && p(s[i]) && forall j | 0 <= j < i :: !p(s[j])
    ensures Those(s, p) != [] && Those(s, p)[0] == s[i]
    decreases |s|
  {
    var init := s[..|s| - 1];
    if i < |init| {
      FirstOfThose(init, p, i);
    } else {
      NoneOfThose(init, p);
    }
  }

  lemma {:induction false} NoneOfThose<T>(s: seq<T>, p: T -> bool)
    requires forall j | 0 <= j < |s| :: !p(s[j])
    ensures Those(s, p) == []
  {
    if s != [] {
      NoneOfThose(s[..|s| - 1], p);
    }
  }

  // Where the same members of two sequences satisfy p, the first of the one is the first of the other.
  lemma FirstAgrees<T>(a: seq<T>, b: seq<T>, p: T -> bool, k: nat) returns (i: nat)
    requires Those(a, p) == Those(b, p)
    requires k < |a| && p(a[k]) && forall j | 0 <= j < k :: !p(a[j])
    ensures i < |b| && b[i] == a[k] && forall j | 0 <= j < i :: !p(b[j])
  {
    FirstOfThose(a, p, k);
    i := 0;
    while i < |b| && !p(b[i])
      invariant i <= |b| && forall j | 0 <= j < i :: !p(b[j])
    {
      i := i + 1;
    }
    if i == |b| {
      NoneOfThose(b, p);
    }
    FirstOfThose(b, p, i);
  }
}

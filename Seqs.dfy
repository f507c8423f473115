/** Sequence helpers shared by the email ledger and the user queries: filtering
    (a SQL WHERE or DELETE), first match (a `.first()` query), pairwise
    constraints (uniqueness constraints of a table) and a stable sort (ORDER BY). */
module Seqs {

  datatype Option<+T> = None | Some(value: T)

  /** The elements of `s` that satisfy `keep`, in their original order. */
  function Filter<T(!new)>(s: seq<T>, keep: T -> bool): (r: seq<T>)
    ensures |r| <= |s|
    ensures forall x :: x in r <==> x in s && keep(x)
  {
    if s == [] then []
    else if keep(s[0]) then [s[0]] + Filter(s[1..], keep)
    else Filter(s[1..], keep)
  }

  lemma {:induction false} FilterAppend<T(!new)>(s: seq<T>, x: T, keep: T -> bool)
    ensures Filter(s + [x], keep) == Filter(s, keep) + (if keep(x) then [x] else [])
  {
    if s == [] {
      assert s + [x] == [x];
      assert [x][1..] == [];
    } else {
      assert (s + [x])[0] == s[0];
      assert (s + [x])[1..] == s[1..] + [x];
      FilterAppend(s[1..], x, keep);
    }
  }

  /** Filtering with a predicate that every element satisfies changes nothing. */
  lemma {:induction false} FilterAll<T(!new)>(s: seq<T>, keep: T -> bool)
    requires forall i | 0 <= i < |s| :: keep(s[i])
    ensures Filter(s, keep) == s
  {
    if s != [] {
      assert keep(s[0]);
      FilterAll(s[1..], keep);
      assert [s[0]] + s[1..] == s;
    }
  }

  /** `p` holds of every pair of elements, taken in sequence order. */
  predicate Pairwise<T>(s: seq<T>, p: (T, T) -> bool) {
    forall i, j | 0 <= i < j < |s| :: p(s[i], s[j])
  }

  /** A pairwise constraint on a sequence holds of its tail and between its head and the tail. */
  lemma PairwiseTail<T>(s: seq<T>, p: (T, T) -> bool)
    requires Pairwise(s, p) && s != []
    ensures Pairwise(s[1..], p)
    ensures forall x | x in s[1..] :: p(s[0], x)
  {
    var t := s[1..];
    forall i, j | 0 <= i < j < |t| ensures p(t[i], t[j]) {
      assert t[i] == s[i + 1] && t[j] == s[j + 1];
    }
    forall x | x in t ensures p(s[0], x) {
      var k :| 0 <= k < |t| && t[k] == x;
      assert s[k + 1] == x;
    }
  }

  /** A head related to every element of a constrained tail extends the constraint. */
  lemma PairwiseCons<T>(h: T, t: seq<T>, p: (T, T) -> bool)
    requires Pairwise(t, p)
    requires forall x | x in t :: p(h, x)
    ensures Pairwise([h] + t, p)
  {
    var s := [h] + t;
    forall i, j | 0 <= i < j < |s| ensures p(s[i], s[j]) {
      if i == 0 {
        assert s[j] == t[j - 1] && t[j - 1] in t;
      } else {
        assert s[i] == t[i - 1] && s[j] == t[j - 1];
      }
    }
  }

  /** Removing elements keeps a pairwise constraint: a filtered table still
      satisfies the uniqueness constraints of the table it came from. */
  lemma {:induction false} FilterPairwise<T(!new)>(s: seq<T>, keep: T -> bool, p: (T, T) -> bool)
    requires Pairwise(s, p)
    ensures Pairwise(Filter(s, keep), p)
  {
    if s != [] {
      var rest := s[1..];
      assert Pairwise(rest, p) by {
        forall i, j | 0 <= i < j < |rest| ensures p(rest[i], rest[j]) {
          assert rest[i] == s[i + 1] && rest[j] == s[j + 1];
        }
      }
      FilterPairwise(rest, keep, p);
      var t := Filter(rest, keep);
      if keep(s[0]) {
        var u := [s[0]] + t;
        forall i, j | 0 <= i < j < |u| ensures p(u[i], u[j]) {
          if i == 0 {
            assert u[j] == t[j - 1];
            assert t[j - 1] in rest;
            var k :| 0 <= k < |rest| && rest[k] == t[j - 1];
            assert s[k + 1] == t[j - 1];
          } else {
            assert u[i] == t[i - 1] && u[j] == t[j - 1];
          }
        }
      }
    }
  }

  /** The first element of `s` that satisfies `p`, if any. */
  function FindFirst<T(!new)>(s: seq<T>, p: T -> bool): (r: Option<T>)
    ensures r.Some? ==> r.value in s && p(r.value)
    ensures r.None? <==> forall x | x in s :: !p(x)
  {
    if s == [] then None
    else if p(s[0]) then Some(s[0])
    else FindFirst(s[1..], p)
  }

  /** Two searches whose predicates agree on every candidate find the same element. */
  lemma {:induction false} FindFirstAgree<T(!new)>(s: seq<T>, p: T -> bool, q: T -> bool)
    requires forall x | x in s :: p(x) == q(x)
    ensures FindFirst(s, p) == FindFirst(s, q)
  {
    if s != [] {
      assert s[0] in s;
      forall x | x in s[1..] ensures p(x) == q(x) {
        assert x in s;
      }
      FindFirstAgree(s[1..], p, q);
    }
  }

  /** Filtering with two predicates that agree on every element gives the same result. */
  lemma {:induction false} FilterAgree<T(!new)>(s: seq<T>, p: T -> bool, q: T -> bool)
    requires forall x | x in s :: p(x) == q(x)
    ensures Filter(s, p) == Filter(s, q)
  {
    if s != [] {
      assert s[0] in s;
      forall x | x in s[1..] ensures p(x) == q(x) {
        assert x in s;
      }
      FilterAgree(s[1..], p, q);
    }
  }

  /** Keys are non-decreasing along `s`. */
  predicate SortedBy<T>(s: seq<T>, key: T -> int) {
    forall i, j | 0 <= i < j < |s| :: key(s[i]) <= key(s[j])
  }

  /** Inserts `x` before the first element of `s` whose key is larger. */
  function Insert<T>(x: T, s: seq<T>, key: T -> int): (r: seq<T>)
    ensures |r| == |s| + 1
  {
    if s == [] || key(x) <= key(s[0]) then [x] + s
    else [s[0]] + Insert(x, s[1..], key)
  }

  /** Inserting adds exactly the one element. */
  lemma {:induction false} InsertPermutes<T>(x: T, s: seq<T>, key: T -> int)
    ensures multiset(Insert(x, s, key)) == multiset(s) + multiset{x}
  {
    if s != [] && key(x) > key(s[0]) {
      InsertPermutes(x, s[1..], key);
      assert s == [s[0]] + s[1..];
    }
  }

  /** An element no larger than any of a sorted sequence can lead it. */
  lemma ConsSorted<T>(h: T, t: seq<T>, key: T -> int)
    requires SortedBy(t, key)
    requires forall y | y in t :: key(h) <= key(y)
    ensures SortedBy([h] + t, key)
  {
    var r := [h] + t;
    forall i, j | 0 <= i < j < |r| ensures key(r[i]) <= key(r[j]) {
      if i == 0 {
        assert r[j] == t[j - 1] && t[j - 1] in t;
      } else {
        assert r[i] == t[i - 1] && r[j] == t[j - 1];
      }
    }
  }

  /** Every element of a sorted sequence has a key no smaller than the head's. */
  lemma HeadIsLeast<T>(s: seq<T>, key: T -> int)
    requires SortedBy(s, key) && s != []
    ensures forall y | y in s :: key(s[0]) <= key(y)
  {
    forall y | y in s ensures key(s[0]) <= key(y) {
      var k :| 0 <= k < |s| && s[k] == y;
      if k > 0 {
        assert key(s[0]) <= key(s[k]);
      }
    }
  }

  /** Inserting into a sorted sequence keeps it sorted. */
  lemma {:induction false} InsertSorted<T>(x: T, s: seq<T>, key: T -> int)
    requires SortedBy(s, key)
    ensures SortedBy(Insert(x, s, key), key)
  {
    if s == [] {
      ConsSorted(x, s, key);
    } else if key(x) <= key(s[0]) {
      HeadIsLeast(s, key);
      ConsSorted(x, s, key);
    } else {
      var t := s[1..];
      assert SortedBy(t, key) by {
        forall i, j | 0 <= i < j < |t| ensures key(t[i]) <= key(t[j]) {
          assert t[i] == s[i + 1] && t[j] == s[j + 1];
        }
      }
      InsertSorted(x, t, key);
      InsertPermutes(x, t, key);
      HeadIsLeast(s, key);
      var tail := Insert(x, t, key);
      forall y | y in tail ensures key(s[0]) <= key(y) {
        assert y in multiset(tail);
        if y != x {
          assert y in multiset(t);
          assert y in s;
        }
      }
      ConsSorted(s[0], tail, key);
    }
  }

  /** A stable insertion sort by ascending key: the ORDER BY of a query. */
  function SortBy<T>(s: seq<T>, key: T -> int): (r: seq<T>)
    ensures |r| == |s|
    ensures multiset(r) == multiset(s)
    ensures SortedBy(r, key)
  {
    if s == [] then []
    else
      var t := SortBy(s[1..], key);
      InsertPermutes(s[0], t, key);
      InsertSorted(s[0], t, key);
      assert s == [s[0]] + s[1..];
      Insert(s[0], t, key)
  }

  /** Inserting an element related both ways to every element keeps a
      pairwise constraint. */
  lemma {:induction false} InsertPairwise<T>(x: T, s: seq<T>, key: T -> int, p: (T, T) -> bool)
    requires Pairwise(s, p)
    requires forall y | y in s :: p(x, y) && p(y, x)
    ensures Pairwise(Insert(x, s, key), p)
  {
    if s == [] || key(x) <= key(s[0]) {
      PairwiseCons(x, s, p);
    } else {
      var t := s[1..];
      PairwiseTail(s, p);
      assert forall y | y in t :: y in s;
      InsertPairwise(x, t, key, p);
      InsertPermutes(x, t, key);
      var tail := Insert(x, t, key);
      forall y | y in tail ensures p(s[0], y) {
        assert y in multiset(tail);
        if y == x {
          assert s[0] in s;
        } else {
          assert y in multiset(t);
        }
      }
      PairwiseCons(s[0], tail, p);
    }
  }

  /** Sorting keeps a symmetric pairwise constraint, such as distinct keys. */
  lemma {:induction false} SortByPairwise<T>(s: seq<T>, key: T -> int, p: (T, T) -> bool)
    requires Pairwise(s, p)
    requires forall a, b :: p(a, b) ==> p(b, a)
    ensures Pairwise(SortBy(s, key), p)
  {
    if s != [] {
      PairwiseTail(s, p);
      SortByPairwise(s[1..], key, p);
      var t := SortBy(s[1..], key);
      forall y | y in t ensures p(s[0], y) && p(y, s[0]) {
        assert y in multiset(t);
        assert y in multiset(s[1..]);
      }
      InsertPairwise(s[0], t, key, p);
    }
  }

  /** A non-empty sequence holds its first element. */
  lemma HeadIn<T>(s: seq<T>)
    ensures s != [] ==> s[0] in s
  {
  }

  /** The window `[offset, offset + limit)` of `s`: LIMIT and OFFSET. */
  function Window<T>(s: seq<T>, offset: nat, limit: nat): (r: seq<T>)
    ensures |r| <= limit
    ensures offset <= |s| ==> |r| == if |s| - offset < limit then |s| - offset else limit
    ensures forall i | 0 <= i < |r| :: offset + i < |s| && r[i] == s[offset + i]
    ensures forall x | x in r :: x in s
  {
    if offset >= |s| then []
    else if |s| - offset <= limit then s[offset..]
    else s[offset..offset + limit]
  }

  /** Removing one more key from a map is removing the enlarged key set. */
  lemma RemoveOneMore<K, V>(m: map<K, V>, done: set<K>, k: K)
    ensures m - done - {k} == m - (done + {k})
  {
  }
}

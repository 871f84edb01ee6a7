/**
 * The stable sort the view relies on (the platform's list sort), as an
 * insertion sort by a real-valued key, smallest key first. Elements with
 * equal keys keep their order.
 */
module Sorting {

  ghost predicate SortedBy<T>(s: seq<T>, key: T -> real) {
    forall i, j | 0 <= i < j < |s| :: key(s[i]) <= key(s[j])
  }

  /** Puts `x` before the first element whose key is not smaller. */
  function InsertBy<T>(x: T, s: seq<T>, key: T -> real): seq<T> {
    if s == [] || key(x) <= key(s[0]) then [x] + s
    else [s[0]] + InsertBy(x, s[1..], key)
  }

  function SortBy<T>(s: seq<T>, key: T -> real): seq<T> {
    if s == [] then [] else InsertBy(s[0], SortBy(s[1..], key), key)
  }

  lemma {:induction false} InsertByMultiset<T>(x: T, s: seq<T>, key: T -> real)
    ensures multiset(InsertBy(x, s, key)) == multiset(s) + multiset{x}
  {
    if s != [] && key(x) > key(s[0]) {
      InsertByMultiset(x, s[1..], key);
      assert s == [s[0]] + s[1..];
    }
  }

  lemma {:induction false} InsertBySorted<T>(x: T, s: seq<T>, key: T -> real)
    requires SortedBy(s, key)
    ensures SortedBy(InsertBy(x, s, key), key)
  {
    if s != [] && key(x) > key(s[0]) {
      var rest := s[1..];
      InsertBySorted(x, rest, key);
      InsertByMultiset(x, rest, key);
      var inserted := InsertBy(x, rest, key);
      forall j | 0 <= j < |inserted| ensures key(s[0]) <= key(inserted[j]) {
        assert inserted[j] in multiset(inserted);
        if inserted[j] != x {
          var k :| 0 <= k < |rest| && rest[k] == inserted[j];
          assert rest[k] == s[k + 1];
        }
      }
    }
  }

  /** The sort is a permutation of its input. */
  lemma {:induction false} SortByMultiset<T>(s: seq<T>, key: T -> real)
    ensures multiset(SortBy(s, key)) == multiset(s)
  {
    if s != [] {
      SortByMultiset(s[1..], key);
      InsertByMultiset(s[0], SortBy(s[1..], key), key);
      assert s == [s[0]] + s[1..];
    }
  }

  /** The sort orders by key and is a permutation of its input. */
  lemma {:induction false} SortByCorrect<T>(s: seq<T>, key: T -> real)
    ensures SortedBy(SortBy(s, key), key)
    ensures multiset(SortBy(s, key)) == multiset(s)
  {
    SortByMultiset(s, key);
    if s != [] {
      SortByCorrect(s[1..], key);
      InsertBySorted(s[0], SortBy(s[1..], key), key);
    }
  }

  /** Inserting into a list whose last element has the largest key puts the new element last exactly when its key is larger still. */
  lemma {:induction false} InsertByLast<T>(x: T, s: seq<T>, key: T -> real)
    requires s != [] && forall i | 0 <= i < |s| :: key(s[i]) <= key(s[|s| - 1])
    ensures |InsertBy(x, s, key)| == |s| + 1
    ensures InsertBy(x, s, key)[|s|] == if key(x) > key(s[|s| - 1]) then x else s[|s| - 1]
  {
    if key(x) > key(s[0]) && |s| > 1 {
      var rest := s[1..];
      forall i | 0 <= i < |rest| ensures key(rest[i]) <= key(rest[|rest| - 1]) {
        assert rest[i] == s[i + 1];
      }
      InsertByLast(x, rest, key);
    }
  }

  /** The k-th element has the largest key, and every later element a strictly smaller one. */
  ghost predicate LastMaxAt<T>(s: seq<T>, key: T -> real, k: int) {
    && 0 <= k < |s|
    && (forall j | 0 <= j < |s| :: key(s[j]) <= key(s[k]))
    && (forall j | k < j < |s| :: key(s[j]) < key(s[k]))
  }

  /** An element of largest key keeps that role in any permutation. */
  lemma MaxInPermutation<T>(s: seq<T>, t: seq<T>, key: T -> real, k: int)
    requires LastMaxAt(s, key, k) && multiset(t) == multiset(s)
    ensures forall i | 0 <= i < |t| :: key(t[i]) <= key(s[k])
  {
    forall i | 0 <= i < |t| ensures key(t[i]) <= key(s[k]) {
      assert t[i] in multiset(s);
      var j :| 0 <= j < |s| && s[j] == t[i];
    }
  }

  /** Putting `s[0]` in front of `s[1..]` keeps the last element of largest key, or makes `s[0]` that element when its key is larger. */
  lemma LastMaxCons<T>(s: seq<T>, key: T -> real, k': int)
    requires |s| > 1 && LastMaxAt(s[1..], key, k')
    ensures key(s[0]) > key(s[k' + 1]) ==> LastMaxAt(s, key, 0)
    ensures key(s[0]) <= key(s[k' + 1]) ==> LastMaxAt(s, key, k' + 1)
  {
    forall j | 0 < j < |s| ensures s[j] == s[1..][j - 1] {
    }
  }

  /**
   * The last element of the sorted list is the input element with the largest
   * key; among several with that key, the one that comes last in the input.
   * `k` is its index in the input.
   */
  lemma {:induction false} SortByLast<T>(s: seq<T>, key: T -> real) returns (k: int)
    requires s != []
    ensures |SortBy(s, key)| == |s|
    ensures 0 <= k < |s| && SortBy(s, key)[|s| - 1] == s[k] && LastMaxAt(s, key, k)
  {
    if |s| == 1 {
      assert SortBy(s, key) == [s[0]];
      k := 0;
    } else {
      var rest := s[1..];
      var k' := SortByLast(rest, key);
      var sortedRest := SortBy(rest, key);
      SortByMultiset(rest, key);
      MaxInPermutation(rest, sortedRest, key, k');
      InsertByLast(s[0], sortedRest, key);
      LastMaxCons(s, key, k');
      k := if key(s[0]) > key(rest[k']) then 0 else k' + 1;
    }
  }
}

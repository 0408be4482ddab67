/**
 * The iteration order of the `BTreeMap<i32, _>` and `BTreeSet<i32>`
 * collections of the second pass: their keys in ascending order.
 */
module OrderedIds {

  /** `m` is the least element of `s`. */
  predicate IsLeast(m: int, s: set<int>) {
    m in s && forall y | y in s :: m <= y
  }

  /** Some element of a non-empty set. */
  lemma PickElement(s: set<int>) returns (x: int)
    requires |s| > 0
    ensures x in s
  {
    if forall y :: y !in s {
      assert false;
    }
    x :| x in s;
  }

  /** A non-empty finite set of ids has a least element. */
  lemma {:induction false} Least(s: set<int>) returns (m: int)
    requires |s| > 0
    ensures IsLeast(m, s)
    decreases |s|
  {
    var x := PickElement(s);
    var rest := s - {x};
    if |rest| == 0 {
      assert s == {x};
      m := x;
    } else {
      var least := Least(rest);
      m := if x < least then x else least;
      forall y | y in s ensures m <= y {
        if y != x {
          assert y in rest;
        }
      }
    }
  }

  lemma LeastExists(s: set<int>)
    requires |s| > 0
    ensures exists m :: IsLeast(m, s)
  {
    var m := Least(s);
  }

  /** The least element is unique. */
  lemma LeastUnique(a: int, b: int, s: set<int>)
    requires IsLeast(a, s) && IsLeast(b, s)
    ensures a == b
  {
  }

  /** `r` lists the elements of `s`, each once, in ascending order. */
  predicate ListsAscending(r: seq<int>, s: set<int>) {
    && |r| == |s|
    && (forall i | 0 <= i < |r| :: r[i] in s)
    && (forall x | x in s :: x in r)
    && (forall i, j | 0 <= i < j < |r| :: r[i] < r[j])
  }

  /** The least element followed by a listing of the others lists the whole set. */
  lemma ListsAscendingCons(s: set<int>, m: int, rest: seq<int>)
    requires IsLeast(m, s) && ListsAscending(rest, s - {m})
    ensures ListsAscending([m] + rest, s)
  {
    assert |s - {m}| == |s| - 1;
    ConsCoversSet(s, m, rest);
    ConsIncreases(s, m, rest);
  }

  lemma ConsCoversSet(s: set<int>, m: int, rest: seq<int>)
    requires m in s && forall x | x in s - {m} :: x in rest
    ensures forall x | x in s :: x in [m] + rest
  {
    forall x | x in s ensures x in [m] + rest {
      if x != m {
        assert x in s - {m};
      }
    }
  }

  lemma ConsIncreases(s: set<int>, m: int, rest: seq<int>)
    requires IsLeast(m, s)
    requires forall i | 0 <= i < |rest| :: rest[i] in s - {m}
    requires forall i, j | 0 <= i < j < |rest| :: rest[i] < rest[j]
    ensures forall i, j | 0 <= i < j < |[m] + rest| :: ([m] + rest)[i] < ([m] + rest)[j]
  {
    var r := [m] + rest;
    forall i, j | 0 <= i < j < |r| ensures r[i] < r[j] {
      assert r[j] == rest[j - 1];
      if i > 0 {
        assert r[i] == rest[i - 1];
      }
    }
  }

  /**
   * The ids of a set in ascending order: the order in which a `BTreeMap`
   * walks its keys and a `BTreeSet` its elements.
   */
  function SortedIds(s: set<int>): (r: seq<int>)
    ensures ListsAscending(r, s)
    decreases |s|
  {
    if |s| == 0 then
      assert s == {};
      []
    else
      LeastExists(s);
      var m :| IsLeast(m, s);
      var rest := SortedIds(s - {m});
      ListsAscendingCons(s, m, rest);
      [m] + rest
  }

  /** Every id of the set below the one at position `i` is visited before it. */
  lemma SmallerIdComesEarlier(s: set<int>, i: nat, k: int)
    requires i < |SortedIds(s)| && k in s && k < SortedIds(s)[i]
    ensures exists j | 0 <= j < i :: SortedIds(s)[j] == k
  {
    var r := SortedIds(s);
    assert k in r;
    var j :| 0 <= j < |r| && r[j] == k;
    assert j < i;
  }
}

/**
 * The entities the model manager stores, reduced to what the core uses, and the
 * list views it derives from them.
 *
 * Problem, Tag and the find rules (ProblemSearchRule) are not part of this model
 * beyond this: a problem is identified by its name and holds a set of tags; a tag is
 * its name (Tag.equals and isSameTag both compare names); a find rule is an opaque
 * named value. The JavaFX FilteredList and SortedList become Filter and SortBy over
 * sequences.
 */
module Entities {

  datatype Tag = Tag(name: string)

  datatype Problem = Problem(name: string, tags: set<Tag>)

  datatype FindRule = FindRule(name: string)

  /** A list position; users see it one-based, the code works zero-based. */
  datatype Index = Index(zeroBased: nat) {
    function OneBased(): nat {
      zeroBased + 1
    }
  }

  function IsSameTag(a: Tag, b: Tag): bool {
    a.name == b.name
  }

  /** The store's no-duplicates rule for each kind of entity. */
  predicate UniqueProblemNames(ps: seq<Problem>) {
    forall i, j :: 0 <= i < j < |ps| ==> ps[i].name != ps[j].name
  }

  predicate UniqueTagNames(ts: seq<Tag>) {
    forall i, j :: 0 <= i < j < |ts| ==> ts[i].name != ts[j].name
  }

  predicate Distinct<T(==)>(s: seq<T>) {
    forall i, j :: 0 <= i < j < |s| ==> s[i] != s[j]
  }

  /** The elements of s that keep accepts, in the order of s: a FilteredList over s. */
  function Filter<T>(s: seq<T>, keep: T -> bool): (r: seq<T>)
    ensures |r| <= |s|
    ensures forall i :: 0 <= i < |r| ==> r[i] in s && keep(r[i])
    ensures forall i :: 0 <= i < |s| && keep(s[i]) ==> s[i] in r
    ensures multiset(r) <= multiset(s)
  {
    if s == [] then []
    else
      var rest := Filter(s[1..], keep);
      var r := if keep(s[0]) then [s[0]] + rest else rest;
      FilterStep(s, keep, rest, r);
      r
  }

  /** One step of Filter: its contract carries over from the tail to the whole list. */
  lemma FilterStep<T>(s: seq<T>, keep: T -> bool, rest: seq<T>, r: seq<T>)
    requires s != []
    requires |rest| <= |s| - 1
    requires forall i :: 0 <= i < |rest| ==> rest[i] in s[1..] && keep(rest[i])
    requires forall i :: 1 <= i < |s| && keep(s[i]) ==> s[i] in rest
    requires multiset(rest) <= multiset(s[1..])
    requires r == if keep(s[0]) then [s[0]] + rest else rest
    ensures |r| <= |s|
    ensures forall i :: 0 <= i < |r| ==> r[i] in s && keep(r[i])
    ensures forall i :: 0 <= i < |s| && keep(s[i]) ==> s[i] in r
    ensures multiset(r) <= multiset(s)
  {
    assert s == [s[0]] + s[1..];
    assert multiset(s) == multiset{s[0]} + multiset(s[1..]);
    forall i | 0 <= i < |r|
      ensures r[i] in s && keep(r[i])
    {
      if keep(s[0]) && i == 0 {
      } else {
        var k := if keep(s[0]) then i - 1 else i;
        assert r[i] == rest[k];
      }
    }
  }

  /** A filter that accepts everything shows the whole list. */
  lemma {:induction false} FilterShowAll<T>(s: seq<T>, keep: T -> bool)
    requires forall x :: keep(x)
    ensures Filter(s, keep) == s
  {
    if s != [] {
      FilterShowAll(s[1..], keep);
    }
  }

  /** Filtering a list without duplicates gives a list without duplicates. */
  lemma {:induction false} FilterDistinct<T>(s: seq<T>, keep: T -> bool)
    requires Distinct(s)
    ensures Distinct(Filter(s, keep))
  {
    if s != [] {
      FilterDistinct(s[1..], keep);
      var rest := Filter(s[1..], keep);
      assert s[0] !in s[1..] by {
        forall k | 0 <= k < |s[1..]| ensures s[1..][k] != s[0] {
          assert s[1..][k] == s[k + 1];
        }
      }
    }
  }

  /** The positions from `from` on whose elements keep accepts, in increasing order. */
  function KeptPositions<T>(s: seq<T>, keep: T -> bool, from: nat): (idx: seq<nat>)
    requires from <= |s|
    ensures forall k :: 0 <= k < |idx| ==> from <= idx[k] < |s|
    decreases |s| - from
  {
    if from == |s| then []
    else (if keep(s[from]) then [from] else []) + KeptPositions(s, keep, from + 1)
  }

  /** r is s read at the strictly increasing positions idx, all at or after from. */
  ghost predicate ReadInOrder<T>(r: seq<T>, s: seq<T>, idx: seq<nat>, from: nat)
  {
    && |idx| == |r|
    && (forall k :: 0 <= k < |idx| ==> from <= idx[k] < |s| && r[k] == s[idx[k]])
    && (forall k, l :: 0 <= k < l < |idx| ==> idx[k] < idx[l])
  }

  /** KeptPositions holds exactly the positions from `from` on that keep accepts. */
  lemma {:induction false} KeptPositionsExact<T>(s: seq<T>, keep: T -> bool, from: nat)
    requires from <= |s|
    ensures forall i :: from <= i < |s| ==> (keep(s[i]) <==> i in KeptPositions(s, keep, from))
    decreases |s| - from
  {
    if from < |s| {
      KeptPositionsExact(s, keep, from + 1);
      assert from !in KeptPositions(s, keep, from + 1);
    }
  }

  /**
   * Filter keeps the order of the list: it reads the list at increasing positions,
   * the positions KeptPositions lists.
   */
  lemma {:induction false} FilterIsSubsequence<T>(s: seq<T>, keep: T -> bool, from: nat)
    requires from <= |s|
    ensures ReadInOrder(Filter(s[from..], keep), s, KeptPositions(s, keep, from), from)
    decreases |s| - from
  {
    if from < |s| {
      FilterIsSubsequence(s, keep, from + 1);
      var rest, tail := Filter(s[from + 1..], keep), KeptPositions(s, keep, from + 1);
      FilterReadStep(s, from, keep(s[from]), rest, tail);
      assert s[from..][1..] == s[from + 1..];
      assert Filter(s[from..], keep) == if keep(s[from]) then [s[from]] + rest else rest;
    }
  }

  /** One step of FilterIsSubsequence: the reading carries over from from + 1 to from. */
  lemma FilterReadStep<T>(s: seq<T>, from: nat, kept: bool, rest: seq<T>, tail: seq<nat>)
    requires from < |s|
    requires ReadInOrder(rest, s, tail, from + 1)
    ensures kept ==> ReadInOrder([s[from]] + rest, s, [from] + tail, from)
    ensures !kept ==> ReadInOrder(rest, s, tail, from)
  {
    if kept {
      var r, idx := [s[from]] + rest, [from] + tail;
      forall k | 0 <= k < |idx|
        ensures from <= idx[k] < |s| && r[k] == s[idx[k]]
      {
        if k > 0 {
          assert idx[k] == tail[k - 1] && r[k] == rest[k - 1];
        }
      }
      forall k, l | 0 <= k < l < |idx|
        ensures idx[k] < idx[l]
      {
        assert idx[l] == tail[l - 1];
        if k > 0 {
          assert idx[k] == tail[k - 1];
        }
      }
    }
  }

  /**
   * A Java comparator: negative, zero or positive. SortBy places an element before
   * the first later element it does not exceed, so equal elements keep their order.
   */
  function Insert<T>(x: T, s: seq<T>, cmp: (T, T) -> int): (r: seq<T>)
    ensures |r| == |s| + 1
    ensures multiset(r) == multiset(s) + multiset{x}
    ensures r[0] == x || (s != [] && r[0] == s[0])
  {
    if s == [] || cmp(x, s[0]) <= 0 then [x] + s
    else
      assert s == [s[0]] + s[1..];
      [s[0]] + Insert(x, s[1..], cmp)
  }

  /** The SortedList over a list: a stable insertion sort by cmp. */
  function SortBy<T>(s: seq<T>, cmp: (T, T) -> int): (r: seq<T>)
    ensures |r| == |s|
    ensures multiset(r) == multiset(s)
  {
    if s == [] then []
    else
      assert s == [s[0]] + s[1..];
      Insert(s[0], SortBy(s[1..], cmp), cmp)
  }

  /** A comparator that orders every pair one way or the other (Comparator's sign contract). */
  ghost predicate Total<T(!new)>(cmp: (T, T) -> int) {
    forall a, b :: cmp(a, b) <= 0 || cmp(b, a) <= 0
  }

  /** Each element is at most its successor. */
  ghost predicate SortedBy<T>(s: seq<T>, cmp: (T, T) -> int) {
    forall i :: 0 < i < |s| ==> cmp(s[i - 1], s[i]) <= 0
  }

  lemma {:induction false} InsertSorted<T(!new)>(x: T, s: seq<T>, cmp: (T, T) -> int)
    requires Total(cmp) && SortedBy(s, cmp)
    ensures SortedBy(Insert(x, s, cmp), cmp)
  {
    if s != [] && cmp(x, s[0]) > 0 {
      var tail := s[1..];
      assert SortedBy(tail, cmp) by {
        forall i | 0 < i < |tail| ensures cmp(tail[i - 1], tail[i]) <= 0 {
          assert tail[i - 1] == s[i] && tail[i] == s[i + 1];
        }
      }
      InsertSorted(x, tail, cmp);
      var r := Insert(x, s, cmp);
      var inner := Insert(x, tail, cmp);
      assert r == [s[0]] + inner;
      forall i | 0 < i < |r| ensures cmp(r[i - 1], r[i]) <= 0 {
        if i == 1 {
          assert r[1] == inner[0];
          if inner[0] != x {
            assert inner[0] == s[1];
          }
        } else {
          assert r[i - 1] == inner[i - 2] && r[i] == inner[i - 1];
        }
      }
    }
  }

  /** Under a total comparator the sorted view is sorted. */
  lemma {:induction false} SortBySorted<T(!new)>(s: seq<T>, cmp: (T, T) -> int)
    requires Total(cmp)
    ensures SortedBy(SortBy(s, cmp), cmp)
  {
    if s != [] {
      SortBySorted(s[1..], cmp);
      InsertSorted(s[0], SortBy(s[1..], cmp), cmp);
    }
  }

  /** Position of the first occurrence of x in s, or |s| when x is absent. */
  function IndexOf<T(==)>(s: seq<T>, x: T): (i: nat)
    ensures i <= |s|
    ensures i < |s| <==> x in s
    ensures i < |s| ==> s[i] == x
    ensures forall j :: 0 <= j < i ==> s[j] != x
  {
    if s == [] then 0
    else if s[0] == x then 0
    else 1 + IndexOf(s[1..], x)
  }

  /** s without its element at position i. */
  function RemoveAt<T>(s: seq<T>, i: nat): (r: seq<T>)
    requires i < |s|
    ensures |r| == |s| - 1
    ensures multiset(r) == multiset(s) - multiset{s[i]}
    ensures forall j :: 0 <= j < i ==> r[j] == s[j]
    ensures forall j :: i <= j < |r| ==> r[j] == s[j + 1]
  {
    assert s == s[..i] + [s[i]] + s[i + 1..];
    s[..i] + s[i + 1..]
  }
}

/**
  `SortMigrationsByOperationPriority`: a stable sort of migrations by the
  position of their operation kind in the `ColumnOperation` enumeration.

  The specification `PrioritySorted` lists the migrations of kind 0 in their
  original order, then those of kind 1, and so on.  The in-place method is
  proved to leave exactly that sequence in the array, and the lemmas show that
  it is an ordered permutation that keeps the relative order of migrations of
  one kind, and the only one.
 */
module SchemaSort {
  import opened Schema

  /** The migrations of `s` whose kind has priority `p`, in their order in `s`. */
  function OfPriority(s: seq<Migration>, p: nat): (r: seq<Migration>)
    ensures |r| <= |s|
    ensures forall k :: 0 <= k < |r| ==> Priority(r[k]) == p
    decreases |s|
  {
    if s == [] then []
    else if Priority(s[0]) == p then [s[0]] + OfPriority(s[1..], p)
    else OfPriority(s[1..], p)
  }

  /** The groups of priority `p`, `p + 1`, ..., one after the other. */
  function GroupsFrom(s: seq<Migration>, p: nat): seq<Migration>
    decreases OperationCount - p
  {
    if p >= OperationCount then [] else OfPriority(s, p) + GroupsFrom(s, p + 1)
  }

  /** The stably sorted arrangement of `s`. */
  function PrioritySorted(s: seq<Migration>): seq<Migration>
  {
    GroupsFrom(s, 0)
  }

  /** Non-decreasing priority along the whole sequence. */
  predicate Sorted(s: seq<Migration>) {
    forall i, j :: 0 <= i < j < |s| ==> Priority(s[i]) <= Priority(s[j])
  }

  /** Every kind occurs in `s` and `t` with the same migrations in the same order. */
  ghost predicate SameGroups(s: seq<Migration>, t: seq<Migration>) {
    forall p :: OfPriority(s, p) == OfPriority(t, p)
  }

  // ---------------------------------------------------------------------------
  // Facts about the groups

  lemma {:induction false} OfPriorityAppend(s: seq<Migration>, t: seq<Migration>, p: nat)
    ensures OfPriority(s + t, p) == OfPriority(s, p) + OfPriority(t, p)
    decreases |s|
  {
    if s == [] {
      assert s + t == t;
    } else {
      assert (s + t)[0] == s[0];
      assert (s + t)[1..] == s[1..] + t;
      OfPriorityAppend(s[1..], t, p);
    }
  }

  lemma {:induction false} OfPriorityNone(s: seq<Migration>, p: nat)
    requires forall k :: 0 <= k < |s| ==> Priority(s[k]) != p
    ensures OfPriority(s, p) == []
    decreases |s|
  {
    if s != [] {
      OfPriorityNone(s[1..], p);
    }
  }

  lemma {:induction false} OfPriorityAll(s: seq<Migration>, p: nat)
    requires forall k :: 0 <= k < |s| ==> Priority(s[k]) == p
    ensures OfPriority(s, p) == s
    decreases |s|
  {
    if s != [] {
      OfPriorityAll(s[1..], p);
      assert s == [s[0]] + s[1..];
    }
  }

  /** The groups from `p` on depend only on the groups themselves. */
  lemma {:induction false} GroupsFromSame(s: seq<Migration>, t: seq<Migration>, p: nat)
    requires forall q :: p <= q ==> OfPriority(s, q) == OfPriority(t, q)
    ensures GroupsFrom(s, p) == GroupsFrom(t, p)
    decreases OperationCount - p
  {
    if p < OperationCount {
      GroupsFromSame(s, t, p + 1);
    }
  }

  /** A leading migration of priority `p` heads the groups from `p` on. */
  lemma HeadGroup(t: seq<Migration>, p: nat)
    requires t != [] && Priority(t[0]) == p && p < OperationCount
    ensures GroupsFrom(t, p) == [t[0]] + GroupsFrom(t[1..], p)
  {
    var rest := t[1..];
    assert forall q :: p + 1 <= q ==> OfPriority(t, q) == OfPriority(rest, q);
    GroupsFromSame(t, rest, p + 1);
    assert GroupsFrom(t, p) == OfPriority(t, p) + GroupsFrom(t, p + 1);
    assert GroupsFrom(rest, p) == OfPriority(rest, p) + GroupsFrom(rest, p + 1);
  }

  /** The tail of a sorted sequence bounded below by `p` is too. */
  lemma SortedTail(t: seq<Migration>, p: nat)
    requires t != [] && Sorted(t)
    requires forall k :: 0 <= k < |t| ==> p <= Priority(t[k])
    ensures Sorted(t[1..])
    ensures forall k :: 0 <= k < |t[1..]| ==> p <= Priority(t[1..][k])
  {
    forall k | 0 <= k < |t[1..]|
      ensures p <= Priority(t[1..][k])
    {
      assert t[1..][k] == t[k + 1];
    }
    forall i, j | 0 <= i < j < |t[1..]|
      ensures Priority(t[1..][i]) <= Priority(t[1..][j])
    {
      assert t[1..][i] == t[i + 1] && t[1..][j] == t[j + 1];
    }
  }

  /** When a sorted sequence does not start with priority `p`, none of it has `p`. */
  lemma SortedAbove(t: seq<Migration>, p: nat)
    requires t != [] && Sorted(t) && p < Priority(t[0])
    ensures forall k :: 0 <= k < |t| ==> p + 1 <= Priority(t[k])
  {
    forall k | 0 < k < |t|
      ensures p + 1 <= Priority(t[k])
    {
      assert Priority(t[0]) <= Priority(t[k]);
    }
  }

  lemma HeadCase(t: seq<Migration>, p: nat)
    requires t != [] && Priority(t[0]) == p && p < OperationCount
    requires GroupsFrom(t[1..], p) == t[1..]
    ensures GroupsFrom(t, p) == t
  {
    HeadGroup(t, p);
    assert t == [t[0]] + t[1..];
  }

  lemma SkipCase(t: seq<Migration>, p: nat)
    requires p < OperationCount
    requires forall k :: 0 <= k < |t| ==> p + 1 <= Priority(t[k])
    requires GroupsFrom(t, p + 1) == t
    ensures GroupsFrom(t, p) == t
  {
    OfPriorityNone(t, p);
    assert GroupsFrom(t, p) == OfPriority(t, p) + GroupsFrom(t, p + 1);
  }

  /** A sorted sequence whose priorities are all at least `p` is its own
      arrangement into groups from `p` on. */
  lemma {:induction false} SortedGroups(t: seq<Migration>, p: nat)
    requires Sorted(t)
    requires forall k :: 0 <= k < |t| ==> p <= Priority(t[k])
    ensures GroupsFrom(t, p) == t
    decreases |t|, OperationCount - p
  {
    if t == [] {
      EmptyGroups(p);
    } else {
      PriorityBound(t[0]);
      if Priority(t[0]) == p {
        SortedTail(t, p);
        SortedGroups(t[1..], p);
        HeadCase(t, p);
      } else {
        SortedAbove(t, p);
        SortedGroups(t, p + 1);
        SkipCase(t, p);
      }
    }
  }

  lemma {:induction false} EmptyGroups(p: nat)
    ensures GroupsFrom([], p) == []
    decreases OperationCount - p
  {
    if p < OperationCount {
      EmptyGroups(p + 1);
    }
  }

  /** Any sorted sequence with the same groups as `s` is `PrioritySorted(s)`:
      a stable sort has exactly one possible outcome. */
  lemma SortedIsPrioritySorted(t: seq<Migration>, s: seq<Migration>)
    requires Sorted(t)
    requires SameGroups(t, s)
    ensures t == PrioritySorted(s)
  {
    SortedGroups(t, 0);
    GroupsFromSame(t, s, 0);
  }

  /** Exchanging two neighbours of different priority keeps every group. */
  lemma SwapKeepsGroups(s: seq<Migration>, j: nat)
    requires 0 < j < |s|
    requires Priority(s[j - 1]) != Priority(s[j])
    ensures SameGroups(s[j - 1 := s[j]][j := s[j - 1]], s)
  {
    var t := s[j - 1 := s[j]][j := s[j - 1]];
    var front, back := s[..j - 1], s[j + 1..];
    assert s == front + [s[j - 1], s[j]] + back;
    assert t == front + [s[j], s[j - 1]] + back;
    forall p: nat
      ensures OfPriority(t, p) == OfPriority(s, p)
    {
      OfPriorityAppend(front + [s[j - 1], s[j]], back, p);
      OfPriorityAppend(front, [s[j - 1], s[j]], p);
      OfPriorityAppend(front + [s[j], s[j - 1]], back, p);
      OfPriorityAppend(front, [s[j], s[j - 1]], p);
      assert [s[j - 1], s[j]][1..] == [s[j]];
      assert [s[j], s[j - 1]][1..] == [s[j - 1]];
    }
  }

  // ---------------------------------------------------------------------------
  // The in-place sort

  /** The first `n` elements are in order, except that the one at `j` may be out of place. */
  predicate SortedExcept(s: seq<Migration>, n: nat, j: nat)
    requires n <= |s|
  {
    forall k, l :: 0 <= k < l < n && k != j && l != j ==> Priority(s[k]) <= Priority(s[l])
  }

  /** Before the element at `i` moves, the first `i + 1` elements are sorted
      except possibly around `i` itself. */
  lemma InsertStart(s: seq<Migration>, i: nat)
    requires i < |s| && Sorted(s[..i])
    ensures SortedExcept(s, i + 1, i)
  {
    forall k, l | 0 <= k < l < i + 1 && k != i && l != i
      ensures Priority(s[k]) <= Priority(s[l])
    {
      assert s[..i][k] == s[k] && s[..i][l] == s[l];
    }
  }

  /** One exchange moves the element at `j` a place to the left. */
  lemma InsertSwap(s: seq<Migration>, i: nat, j: nat)
    requires 0 < j <= i < |s|
    requires SortedExcept(s, i + 1, j)
    requires forall l :: j < l <= i ==> Priority(s[j]) < Priority(s[l])
    requires Priority(s[j - 1]) > Priority(s[j])
    ensures var t := s[j - 1 := s[j]][j := s[j - 1]];
      SortedExcept(t, i + 1, j - 1) && forall l :: j - 1 < l <= i ==> Priority(t[j - 1]) < Priority(t[l])
  {
  }

  /** Once the element at `j` is in place, the first `i + 1` elements are sorted. */
  lemma InsertDone(s: seq<Migration>, i: nat, j: nat)
    requires j <= i < |s|
    requires SortedExcept(s, i + 1, j)
    requires forall l :: j < l <= i ==> Priority(s[j]) < Priority(s[l])
    requires j > 0 ==> Priority(s[j - 1]) <= Priority(s[j])
    ensures Sorted(s[..i + 1])
  {
    var t := s[..i + 1];
    forall k, l | 0 <= k < l < |t|
      ensures Priority(t[k]) <= Priority(t[l])
    {
      assert t[k] == s[k] && t[l] == s[l];
      if k != j && l != j && j > 0 && k < j - 1 && l > j {
        assert Priority(s[k]) <= Priority(s[j - 1]);
      }
    }
  }

  /** `SortMigrationsByOperationPriority`: sorts the array in place, stably, by
      priority; each element moves left past the larger ones before it. */
  method SortMigrationsByOperationPriority(a: array<Migration>)
    modifies a
    ensures a[..] == PrioritySorted(old(a[..]))
  {
    ghost var original := a[..];
    var i := 0;
    while i < a.Length
      invariant 0 <= i <= a.Length
      invariant Sorted(a[..i])
      invariant SameGroups(a[..], original)
    {
      var j := i;
      InsertStart(a[..], i);
      while j > 0 && Priority(a[j - 1]) > Priority(a[j])
        invariant 0 <= j <= i
        invariant SortedExcept(a[..], i + 1, j)
        invariant forall l :: j < l <= i ==> Priority(a[j]) < Priority(a[l])
        invariant SameGroups(a[..], original)
      {
        ghost var before := a[..];
        SwapKeepsGroups(before, j);
        InsertSwap(before, i, j);
        a[j - 1], a[j] := a[j], a[j - 1];
        assert a[..] == before[j - 1 := before[j]][j := before[j - 1]];
        j := j - 1;
      }
      InsertDone(a[..], i, j);
      i := i + 1;
    }
    assert a[..a.Length] == a[..];
    SortedIsPrioritySorted(a[..], original);
  }

  // ---------------------------------------------------------------------------
  // What the arrangement is

  /** A group of priority `p` before sorted migrations of higher priority is sorted. */
  lemma GroupThenRest(g: seq<Migration>, rest: seq<Migration>, p: nat)
    requires forall k :: 0 <= k < |g| ==> Priority(g[k]) == p
    requires forall k :: 0 <= k < |rest| ==> p + 1 <= Priority(rest[k])
    requires Sorted(rest)
    ensures forall k :: 0 <= k < |g + rest| ==> p <= Priority((g + rest)[k])
    ensures Sorted(g + rest)
  {
    forall k | 0 <= k < |g + rest|
      ensures p <= Priority((g + rest)[k])
    {
      if k >= |g| { assert (g + rest)[k] == rest[k - |g|]; }
    }
    forall i, j | 0 <= i < j < |g + rest|
      ensures Priority((g + rest)[i]) <= Priority((g + rest)[j])
    {
      if j < |g| {
      } else if i < |g| {
        assert (g + rest)[j] == rest[j - |g|];
      } else {
        assert (g + rest)[i] == rest[i - |g|];
        assert (g + rest)[j] == rest[j - |g|];
      }
    }
  }

  lemma {:induction false} GroupsFromBounds(s: seq<Migration>, p: nat)
    ensures forall k :: 0 <= k < |GroupsFrom(s, p)| ==> p <= Priority(GroupsFrom(s, p)[k])
    ensures Sorted(GroupsFrom(s, p))
    decreases OperationCount - p
  {
    if p < OperationCount {
      GroupsFromBounds(s, p + 1);
      var g, rest := OfPriority(s, p), GroupsFrom(s, p + 1);
      assert GroupsFrom(s, p) == g + rest;
      GroupThenRest(g, rest, p);
    }
  }

  /** The arrangement is ordered by priority. */
  lemma PrioritySortedIsSorted(s: seq<Migration>)
    ensures Sorted(PrioritySorted(s))
  {
    GroupsFromBounds(s, 0);
  }

  /** The migrations of `s` whose priority is at least `p`. */
  function AtLeast(s: seq<Migration>, p: nat): (r: seq<Migration>)
    ensures forall k :: 0 <= k < |r| ==> p <= Priority(r[k])
    decreases |s|
  {
    if s == [] then []
    else if p <= Priority(s[0]) then [s[0]] + AtLeast(s[1..], p)
    else AtLeast(s[1..], p)
  }

  lemma {:induction false} AtLeastSplit(s: seq<Migration>, p: nat)
    ensures multiset(AtLeast(s, p)) == multiset(OfPriority(s, p)) + multiset(AtLeast(s, p + 1))
    decreases |s|
  {
    if s != [] {
      AtLeastSplit(s[1..], p);
    }
  }

  lemma {:induction false} AtLeastZero(s: seq<Migration>)
    ensures AtLeast(s, 0) == s
    decreases |s|
  {
    if s != [] {
      AtLeastZero(s[1..]);
      assert s == [s[0]] + s[1..];
    }
  }

  lemma {:induction false} AtLeastTop(s: seq<Migration>, p: nat)
    requires OperationCount <= p
    ensures AtLeast(s, p) == []
    decreases |s|
  {
    if s != [] {
      PriorityBound(s[0]);
      AtLeastTop(s[1..], p);
    }
  }

  lemma {:induction false} GroupsFromMultiset(s: seq<Migration>, p: nat)
    ensures multiset(GroupsFrom(s, p)) == multiset(AtLeast(s, p))
    decreases OperationCount - p
  {
    if p >= OperationCount {
      AtLeastTop(s, p);
    } else {
      GroupsFromMultiset(s, p + 1);
      AtLeastSplit(s, p);
    }
  }

  /** The arrangement is a permutation of its input. */
  lemma PrioritySortedIsPermutation(s: seq<Migration>)
    ensures multiset(PrioritySorted(s)) == multiset(s)
  {
    GroupsFromMultiset(s, 0);
    AtLeastZero(s);
  }

  lemma {:induction false} OfPriorityOutOfRange(s: seq<Migration>, p: nat)
    requires OperationCount <= p
    ensures OfPriority(s, p) == []
  {
    forall k | 0 <= k < |s|
      ensures Priority(s[k]) != p
    {
      PriorityBound(s[k]);
    }
    OfPriorityNone(s, p);
  }

  lemma {:induction false} GroupsFromOfPriority(s: seq<Migration>, p0: nat, p: nat)
    ensures OfPriority(GroupsFrom(s, p0), p) == if p0 <= p then OfPriority(s, p) else []
    decreases OperationCount - p0
  {
    if p0 >= OperationCount {
      if p0 <= p {
        OfPriorityOutOfRange(s, p);
      }
    } else {
      var g := OfPriority(s, p0);
      GroupsFromOfPriority(s, p0 + 1, p);
      OfPriorityAppend(g, GroupsFrom(s, p0 + 1), p);
      if p0 == p {
        OfPriorityAll(g, p);
      } else {
        OfPriorityNone(g, p);
      }
    }
  }

  /** Stability: migrations of one kind keep their relative order. */
  lemma PrioritySortedIsStable(s: seq<Migration>)
    ensures SameGroups(PrioritySorted(s), s)
  {
    forall p: nat
      ensures OfPriority(PrioritySorted(s), p) == OfPriority(s, p)
    {
      GroupsFromOfPriority(s, 0, p);
    }
  }

  /** After sorting, no foreign-key drop comes after a column drop, and no
      column addition comes after a foreign-key addition. */
  lemma SortedDropsAndAdds(s: seq<Migration>, i: nat, j: nat)
    requires i < j < |PrioritySorted(s)|
    ensures PrioritySorted(s)[i].DropColumn? ==> !PrioritySorted(s)[j].DropForeignKey?
    ensures PrioritySorted(s)[i].AddForeignKey? ==> !PrioritySorted(s)[j].AddColumn?
  {
    PrioritySortedIsSorted(s);
  }
}

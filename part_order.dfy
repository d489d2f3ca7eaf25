/**
 * The ordering CompleteMultipartUpload applies to the caller's part list before sending
 * it: an in-place sort by ascending part number (sort.Sort with a Less on PartNumber).
 */
module PartOrder {
  import opened Types

  predicate SortedByNumber(s: seq<Part>) {
    forall i, j :: 0 <= i < j < |s| ==> s[i].partNumber <= s[j].partNumber
  }

  predicate StrictlyAscending(s: seq<Part>) {
    forall i, j :: 0 <= i < j < |s| ==> s[i].partNumber < s[j].partNumber
  }

  /** `t` is `s` reordered by ascending part number: nothing added, nothing dropped. */
  ghost predicate IsSortedPermutation(t: seq<Part>, s: seq<Part>) {
    SortedByNumber(t) && multiset(t) == multiset(s)
  }

  method Swap(a: array<Part>, i: nat, j: nat)
    requires i < a.Length && j < a.Length
    modifies a
    ensures a[..] == old(a[..])[i := old(a[j])][j := old(a[i])]
    ensures multiset(a[..]) == multiset(old(a[..]))
  {
    a[i], a[j] := a[j], a[i];
  }

  /**
   * Sorts `a` in place by ascending part number. Like sort.Sort, it does not promise
   * any order among parts with equal numbers.
   */
  method SortParts(a: array<Part>)
    modifies a
    ensures IsSortedPermutation(a[..], old(a[..]))
  {
    var i := 0;
    while i < a.Length
      invariant 0 <= i <= a.Length
      invariant SortedByNumber(a[..i])
      invariant multiset(a[..]) == multiset(old(a[..]))
    {
      InsertAt(a, i);
      i := i + 1;
    }
    assert a[..i] == a[..];
  }

  /** Moves `a[i]` down into the sorted prefix `a[..i]`, leaving `a[..i + 1]` sorted. */
  method InsertAt(a: array<Part>, i: nat)
    requires i < a.Length
    requires SortedByNumber(a[..i])
    modifies a
    ensures SortedByNumber(a[..i + 1])
    ensures multiset(a[..]) == multiset(old(a[..]))
    ensures forall q :: i < q < a.Length ==> a[q] == old(a[q])
  {
    var j := i;
    while 0 < j && a[j].partNumber < a[j - 1].partNumber
      invariant 0 <= j <= i
      invariant multiset(a[..]) == multiset(old(a[..]))
      invariant forall p, q :: 0 <= p < q <= i && p != j && q != j ==> a[p].partNumber <= a[q].partNumber
      invariant forall q :: j < q <= i ==> a[j].partNumber <= a[q].partNumber
      invariant forall q :: i < q < a.Length ==> a[q] == old(a[q])
    {
      Swap(a, j - 1, j);
      j := j - 1;
    }
  }

  /** The smallest-numbered part leads both lists. */
  lemma SameHead(s: seq<Part>, t: seq<Part>)
    requires StrictlyAscending(s) && s != []
    requires IsSortedPermutation(t, s)
    ensures t != [] && t[0] == s[0]
  {
    assert t[0] in multiset(s) by { assert t[0] in multiset(t); }
    var i :| 0 <= i < |s| && s[i] == t[0];
    assert s[0] in multiset(t) by { assert s[0] in multiset(s); }
    var j :| 0 <= j < |t| && t[j] == s[0];
    assert s[i].partNumber <= s[0].partNumber;
  }

  /** A sequence's multiset is its head plus the multiset of the rest. */
  lemma MultisetOfTail(s: seq<Part>)
    requires s != []
    ensures multiset(s[1..]) == multiset(s) - multiset{s[0]}
  {
    assert s == [s[0]] + s[1..];
  }

  /**
   * When the part numbers are distinct, there is only one way to sort the parts:
   * every sorted permutation of an ascending list is that list.
   */
  lemma {:induction false} SortedPermutationUnique(s: seq<Part>, t: seq<Part>)
    requires StrictlyAscending(s)
    requires IsSortedPermutation(t, s)
    ensures t == s
    decreases |s|
  {
    assert |t| == |multiset(t)| == |multiset(s)| == |s|;
    if s != [] {
      SameHead(s, t);
      MultisetOfTail(s);
      MultisetOfTail(t);
      SortedPermutationUnique(s[1..], t[1..]);
      assert s == [s[0]] + s[1..] && t == [t[0]] + t[1..];
    }
  }

  /**
   * With distinct part numbers the order the parts were collected in does not matter:
   * sorting any rearrangement `u` of the ascending list `s` yields `s`.
   */
  lemma SortForgetsCollectionOrder(s: seq<Part>, u: seq<Part>, t: seq<Part>)
    requires StrictlyAscending(s)
    requires multiset(u) == multiset(s)
    requires IsSortedPermutation(t, u)
    ensures t == s
  {
    SortedPermutationUnique(s, t);
  }
}

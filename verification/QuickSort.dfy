/** The three-way in-place quicksort of the benchmark programs. */
module QuickSort {

  /** t is s with the elements from lo up to hi permuted. */
  ghost predicate Permuted(s: seq<int>, t: seq<int>, lo: nat, hi: nat) {
    && lo <= hi <= |s| == |t|
    && s[..lo] == t[..lo] && s[hi..] == t[hi..]
    && multiset(s[lo..hi]) == multiset(t[lo..hi])
  }

  ghost predicate Sorted(s: seq<int>, lo: nat, hi: nat)
    requires lo <= hi <= |s|
  {
    forall i, j | lo <= i < j < hi :: s[i] <= s[j]
  }

  lemma PermutedTrans(s: seq<int>, t: seq<int>, u: seq<int>, lo: nat, hi: nat)
    requires Permuted(s, t, lo, hi) && Permuted(t, u, lo, hi)
    ensures Permuted(s, u, lo, hi)
  {
  }

  /** Permuting a part permutes the whole. */
  lemma PermutedPart(s: seq<int>, t: seq<int>, lo: nat, hi: nat, lo': nat, hi': nat)
    requires Permuted(s, t, lo', hi') && lo <= lo' && hi' <= hi <= |s|
    ensures Permuted(s, t, lo, hi)
  {
    assert s[..lo] == s[..lo'][..lo] && t[..lo] == t[..lo'][..lo];
    assert s[hi..] == s[hi'..][hi - hi'..] && t[hi..] == t[hi'..][hi - hi'..];
    var l, r := s[..lo'][lo..], s[hi'..][..hi - hi'];
    assert s[lo..hi] == l + s[lo'..hi'] + r;
    assert t[lo..hi] == l + t[lo'..hi'] + r;
  }

  lemma PermutedSwap(s: seq<int>, t: seq<int>, i: nat, j: nat, lo: nat, hi: nat)
    requires lo <= i <= j < hi <= |s| && t == s[i := s[j]][j := s[i]]
    ensures Permuted(s, t, lo, hi)
  {
    var u, v := s[lo..hi], t[lo..hi];
    assert v == u[i - lo := u[j - lo]][j - lo := u[i - lo]];
    SwapMultiset(u, i - lo, j - lo);
  }

  lemma SwapMultiset(u: seq<int>, i: nat, j: nat)
    requires i <= j < |u|
    ensures multiset(u[i := u[j]][j := u[i]]) == multiset(u)
  {
    var w := u[i := u[j]];
    assert multiset(w) == multiset(u) - multiset{u[i]} + multiset{u[j]};
    assert multiset(w[j := u[i]]) == multiset(w) - multiset{w[j]} + multiset{u[i]};
  }

  method Swap(a: array<int>, i: nat, j: nat, ghost lo: nat, ghost hi: nat)
    requires lo <= i <= j < hi <= a.Length
    modifies a
    ensures a[..] == old(a[..])[i := old(a[j])][j := old(a[i])]
    ensures Permuted(old(a[..]), a[..], lo, hi)
  {
    var tmp := a[j];
    a[j] := a[i];
    a[i] := tmp;
    PermutedSwap(old(a[..]), a[..], i, j, lo, hi);
  }

  /** First pass: the elements below the pivot move to the front. */
  method MoveSmaller(a: array<int>, start: nat, end: nat, pivot: int) returns (l: nat)
    requires start <= end <= a.Length
    modifies a
    ensures start <= l <= end && Permuted(old(a[..]), a[..], start, end)
    ensures (forall i | start <= i < l :: a[i] < pivot) && (forall i | l <= i < end :: a[i] >= pivot)
  {
    l := start;
    var r := start;
    while r < end
      invariant start <= l <= r <= end && Permuted(old(a[..]), a[..], start, end)
      invariant (forall i | start <= i < l :: a[i] < pivot) && (forall i | l <= i < r :: a[i] >= pivot)
    {
      if a[r] < pivot {
        ghost var s := a[..];
        Swap(a, l, r, start, end);
        PermutedTrans(old(a[..]), s, a[..], start, end);
        l := l + 1;
      }
      r := r + 1;
    }
  }

  /** Second pass: of the others, those equal to the pivot move to the front. */
  method MoveEqual(a: array<int>, start: nat, end: nat, pivot: int) returns (l2: nat)
    requires start <= end <= a.Length && forall i | start <= i < end :: a[i] >= pivot
    modifies a
    ensures start <= l2 <= end && Permuted(old(a[..]), a[..], start, end)
    ensures (forall i | start <= i < l2 :: a[i] == pivot) && (forall i | l2 <= i < end :: a[i] > pivot)
  {
    l2 := start;
    var r := start;
    while r < end
      invariant start <= l2 <= r <= end && Permuted(old(a[..]), a[..], start, end)
      invariant forall i | start <= i < l2 :: a[i] == pivot
      invariant forall i | l2 <= i < r :: a[i] > pivot
      invariant forall i | r <= i < end :: a[i] >= pivot
    {
      if a[r] == pivot {
        ghost var s := a[..];
        Swap(a, l2, r, start, end);
        PermutedTrans(old(a[..]), s, a[..], start, end);
        l2 := l2 + 1;
      }
      r := r + 1;
    }
  }

  /** Something equal to the pivot is left for the second pass. */
  lemma PivotRemains(s: seq<int>, t: seq<int>, lo: nat, hi: nat, index: nat, l: nat)
    requires Permuted(s, t, lo, hi) && lo <= index < hi && lo <= l <= hi
    requires forall i | lo <= i < l :: t[i] < s[index]
    ensures exists i | l <= i < hi :: t[i] == s[index]
  {
    assert s[lo..hi][index - lo] == s[index];
    assert s[index] in multiset(s[lo..hi]);
    assert s[index] in t[lo..hi];
    var j :| 0 <= j < hi - lo && t[lo..hi][j] == s[index];
    assert t[lo + j] == s[index];
  }

  /** One round: smaller elements, elements equal to some chosen one, larger
      elements.  The middle part is never empty, whatever the choice. */
  method Partition(a: array<int>, start: nat, end: nat) returns (l: nat, l2: nat, pivot: int)
    requires start < end <= a.Length
    modifies a
    ensures start <= l < l2 <= end && Permuted(old(a[..]), a[..], start, end)
    ensures forall i | start <= i < l :: a[i] < pivot
    ensures forall i | l <= i < l2 :: a[i] == pivot
    ensures forall i | l2 <= i < end :: a[i] > pivot
  {
    hide Permuted;
    var index :| start <= index < end;  // any choice
    pivot := a[index];
    l := MoveSmaller(a, start, end, pivot);
    ghost var s := a[..];
    PivotRemains(old(a[..]), s, start, end, index, l);
    ghost var k :| l <= k < end && s[k] == pivot;
    l2 := MoveEqual(a, l, end, pivot);
    PermutedPart(s, a[..], start, end, l, end);
    PermutedTrans(old(a[..]), s, a[..], start, end);
    PermutedPrefix(s, a[..], l, end);
    MiddleNotEmpty(s, a[..], l, l2, end, k, pivot);
  }

  lemma PermutedPrefix(s: seq<int>, t: seq<int>, lo: nat, hi: nat)
    requires Permuted(s, t, lo, hi)
    ensures lo <= |s| == |t| && forall i | 0 <= i < lo :: t[i] == s[i]
  {
    forall i | 0 <= i < lo ensures t[i] == s[i] {
      assert s[..lo][i] == t[..lo][i];
    }
  }

  lemma MiddleNotEmpty(s: seq<int>, t: seq<int>, l: nat, l2: nat, end: nat, k: nat, pivot: int)
    requires Permuted(s, t, l, end) && l <= k < end && s[k] == pivot && l <= l2 <= end
    requires forall i | l2 <= i < end :: t[i] > pivot
    ensures l < l2
  {
    assert s[l..end][k - l] == pivot;
    assert pivot in multiset(s[l..end]);
    assert pivot in t[l..end];
  }

  lemma ShortSorted(s: seq<int>, lo: nat, hi: nat)
    requires lo <= hi <= |s| && hi <= lo + 1
    ensures Permuted(s, s, lo, hi) && Sorted(s, lo, hi)
  {
  }

  lemma PermutedLength(s: seq<int>, t: seq<int>, lo: nat, hi: nat)
    requires Permuted(s, t, lo, hi)
    ensures |s| == |t|
  {
  }

  /** Sorts len elements from start on; nothing else moves. */
  method Sort(a: array<int>, start: nat, len: nat)
    requires start + len <= a.Length
    modifies a
    ensures Permuted(old(a[..]), a[..], start, start + len) && Sorted(a[..], start, start + len)
    decreases len
  {
    hide Permuted, Sorted;
    if len <= 1 {
      ShortSorted(a[..], start, start + len);
      return;
    }
    var end := start + len;
    var l, l2, pivot := Partition(a, start, end);
    if l == l2 {
      assert false;
    }
    ghost var s := a[..];
    Sort(a, start, l - start);
    ghost var t := a[..];
    PermutedLength(s, t, start, l);
    Sort(a, l2, end - l2);
    ThreeParts(s, t, a[..], start, l, l2, end, pivot);
    PermutedTrans(old(a[..]), s, a[..], start, end);
  }

  /** Sorting the outer parts sorts the whole. */
  lemma ThreeParts(s: seq<int>, t: seq<int>, u: seq<int>, lo: nat, l: nat, l2: nat, hi: nat, pivot: int)
    requires lo <= l <= l2 <= hi <= |s|
    requires Permuted(s, t, lo, l) && Sorted(t, lo, l) && Permuted(t, u, l2, hi) && Sorted(u, l2, hi)
    requires forall i | lo <= i < l :: s[i] < pivot
    requires forall i | l <= i < l2 :: s[i] == pivot
    requires forall i | l2 <= i < hi :: s[i] > pivot
    ensures Permuted(s, u, lo, hi) && Sorted(u, lo, hi)
  {
    PermutedPart(s, t, lo, hi, lo, l);
    PermutedPart(t, u, lo, hi, l2, hi);
    PermutedTrans(s, t, u, lo, hi);
    SameBelow(t, u, l2);
    SameAbove(s, t, l);
    UpperBound(s, t, lo, l, pivot);
    LowerBound(t, u, l2, hi, pivot);
    assert Sorted(u, lo, l);
  }

  lemma SameBelow(s: seq<int>, t: seq<int>, k: nat)
    requires k <= |s| == |t| && s[..k] == t[..k]
    ensures forall i | 0 <= i < k :: s[i] == t[i]
  {
    forall i | 0 <= i < k ensures s[i] == t[i] {
      assert s[..k][i] == t[..k][i];
    }
  }

  lemma SameAbove(s: seq<int>, t: seq<int>, k: nat)
    requires k <= |s| == |t| && s[k..] == t[k..]
    ensures forall i | k <= i < |s| :: s[i] == t[i]
  {
    forall i | k <= i < |s| ensures s[i] == t[i] {
      assert s[k..][i - k] == t[k..][i - k];
    }
  }

  lemma UpperBound(s: seq<int>, t: seq<int>, lo: nat, hi: nat, x: int)
    requires Permuted(s, t, lo, hi) && forall i | lo <= i < hi :: s[i] < x
    ensures forall i | lo <= i < hi :: t[i] < x
  {
    forall i | lo <= i < hi ensures t[i] < x {
      assert t[lo..hi][i - lo] == t[i];
      assert t[i] in multiset(t[lo..hi]);
      assert t[i] in s[lo..hi];
    }
  }

  lemma LowerBound(s: seq<int>, t: seq<int>, lo: nat, hi: nat, x: int)
    requires Permuted(s, t, lo, hi) && forall i | lo <= i < hi :: s[i] > x
    ensures forall i | lo <= i < hi :: t[i] > x
  {
    forall i | lo <= i < hi ensures t[i] > x {
      assert t[lo..hi][i - lo] == t[i];
      assert t[i] in multiset(t[lo..hi]);
      assert t[i] in s[lo..hi];
    }
  }
}

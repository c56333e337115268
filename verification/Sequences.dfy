/** Sequences without duplicates. */
module Sequences {

  predicate NoDuplicates<T(==)>(s: seq<T>) {
    forall i, j | 0 <= i < j < |s| :: s[i] != s[j]
  }

  ghost predicate Disjoint<T>(s: seq<T>, t: seq<T>) {
    forall i, j | 0 <= i < |s| && 0 <= j < |t| :: s[i] != t[j]
  }

  lemma DisjointSubset<T>(s: seq<T>, t: seq<T>, s': seq<T>, t': seq<T>)
    requires Disjoint(s, t)
    requires forall x | x in s' :: x in s
    requires forall x | x in t' :: x in t
    ensures Disjoint(s', t')
  {
    forall i, j | 0 <= i < |s'| && 0 <= j < |t'| ensures s'[i] != t'[j] {
      assert s'[i] in s && t'[j] in t;
    }
  }

  function Remove<T(==)>(s: seq<T>, p: T): seq<T> {
    if s == [] then [] else if s[0] == p then s[1..] else [s[0]] + Remove(s[1..], p)
  }

  lemma {:induction false} RemoveMembers<T>(s: seq<T>, p: T)
    ensures forall b | b in Remove(s, p) :: b in s
  {
    if s != [] {
      RemoveMembers(s[1..], p);
    }
  }

  lemma {:induction false} RemoveFacts<T>(s: seq<T>, p: T)
    requires NoDuplicates(s)
    ensures NoDuplicates(Remove(s, p))
    ensures forall b :: b in Remove(s, p) <==> b in s && b != p
  {
    if s != [] {
      RemoveFacts(s[1..], p);
      assert s == [s[0]] + s[1..];
      assert s[0] != p ==> s[0] !in Remove(s[1..], p);
    }
  }

  lemma {:induction false} RemoveAt<T>(s: seq<T>, i: nat)
    requires NoDuplicates(s) && i < |s|
    ensures Remove(s, s[i]) == s[..i] + s[i + 1..]
  {
    if i != 0 {
      RemoveAt(s[1..], i - 1);
    }
  }

  function InsertSecond<T>(c: seq<T>, p: T): (d: seq<T>)
    requires |c| >= 1
    ensures |d| == |c| + 1 && d[0] == c[0] && d[1] == p
    ensures forall i | 2 <= i < |d| :: d[i] == c[i - 1]
  {
    [c[0], p] + c[1..]
  }

  function Without<T>(c: seq<T>, i: nat): (d: seq<T>)
    requires i < |c|
    ensures |d| == |c| - 1
    ensures forall j | 0 <= j < |d| :: d[j] == if j < i then c[j] else c[j + 1]
  {
    c[..i] + c[i + 1..]
  }

  /** What has no duplicates is no longer than what holds all its elements. */
  lemma {:induction false} LengthAtMost<T>(s: seq<T>, t: seq<T>)
    requires NoDuplicates(s) && forall x | x in s :: x in t
    ensures |s| <= |t|
  {
    if s != [] {
      var x := s[0];
      assert x in t;
      var i :| 0 <= i < |t| && t[i] == x;
      var t' := t[..i] + t[i + 1..];
      assert forall y | y in t && y != x :: y in t';
      assert forall y | y in s[1..] :: y in s && y != x;
      LengthAtMost(s[1..], t');
    }
  }
}

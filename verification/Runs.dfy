/** Runs of free seats in a row of seats; true stands for a free seat. */
module Runs {

  function Max(x: nat, y: nat): nat {
    if x >= y then x else y
  }

  /** The length of the run of free seats at the left end. */
  function Prefix(s: seq<bool>): (n: nat)
    ensures n <= |s|
  {
    if s == [] || !s[0] then 0 else 1 + Prefix(s[1..])
  }

  /** The length of the run of free seats at the right end. */
  function Suffix(s: seq<bool>): (n: nat)
    ensures n <= |s|
  {
    if s == [] || !s[|s| - 1] then 0 else 1 + Suffix(s[..|s| - 1])
  }

  /** The length of the longest run of free seats. */
  function Longest(s: seq<bool>): (n: nat)
    ensures n <= |s|
  {
    if s == [] then 0 else Max(Prefix(s), Longest(s[1..]))
  }

  /** req seats from i on are there and free. */
  predicate Fits(s: seq<bool>, req: int, i: int) {
    0 <= i && i + req <= |s| && forall j | i <= j < i + req && 0 <= j < |s| :: s[j]
  }

  ghost predicate FirstFit(s: seq<bool>, req: int, i: int) {
    Fits(s, req, i) && forall j | 0 <= j < i :: !Fits(s, req, j)
  }

  /** i is where a party of req is placed, or -1 if there is no place. */
  ghost predicate RightPlace(s: seq<bool>, req: int, i: int) {
    if i == -1 then forall j :: !Fits(s, req, j) else FirstFit(s, req, i)
  }

  // ----------------------------------------------------- the three lengths, in words

  lemma {:induction false} PrefixFree(s: seq<bool>, n: nat)
    requires n <= |s|
    ensures n <= Prefix(s) <==> forall j | 0 <= j < n :: s[j]
  {
    if n > 0 && s[0] {
      PrefixFree(s[1..], n - 1);
      assert forall j | 0 <= j < n - 1 :: s[1..][j] == s[j + 1];
      assert forall j | 1 <= j < n :: s[j] == s[1..][j - 1];
    }
  }

  lemma {:induction false} SuffixFree(s: seq<bool>, n: nat)
    requires n <= |s|
    ensures n <= Suffix(s) <==> forall j | |s| - n <= j < |s| :: s[j]
  {
    if n > 0 && s[|s| - 1] {
      SuffixFree(s[..|s| - 1], n - 1);
    }
  }

  /** A place exists iff the longest run is long enough. */
  lemma {:induction false} LongestFits(s: seq<bool>, req: int)
    ensures req <= Longest(s) <==> exists i :: Fits(s, req, i)
  {
    if req <= 0 {
      assert Fits(s, req, 0);
    } else if s != [] {
      LongestFits(s[1..], req);
      if req <= |s| {
        PrefixFree(s, req);
      }
      if i :| Fits(s[1..], req, i) {
        FitsTail(s, req, i);
      }
      if i :| Fits(s, req, i) {
        if i == 0 {
          assert req <= Prefix(s);
        } else {
          FitsTail(s, req, i - 1);
        }
      }
      if req <= Prefix(s) {
        assert Fits(s, req, 0);
      }
    }
  }

  lemma FitsTail(s: seq<bool>, req: int, i: int)
    requires s != [] && 0 <= i && req > 0
    ensures Fits(s[1..], req, i) <==> Fits(s, req, i + 1)
  {
    assert forall j | 0 <= j < |s| - 1 :: s[1..][j] == s[j + 1];
    assert forall j | 1 <= j < |s| :: s[j] == s[1..][j - 1];
  }

  // -------------------------------------------------------------- two rows in a row

  lemma {:induction false} PrefixConcat(s: seq<bool>, t: seq<bool>)
    ensures Prefix(s + t) == if Prefix(s) == |s| then |s| + Prefix(t) else Prefix(s)
  {
    if s == [] {
      assert s + t == t;
    } else {
      assert (s + t)[1..] == s[1..] + t;
      PrefixConcat(s[1..], t);
    }
  }

  lemma {:induction false} SuffixConcat(s: seq<bool>, t: seq<bool>)
    ensures Suffix(s + t) == if Suffix(t) == |t| then |t| + Suffix(s) else Suffix(t)
  {
    if t == [] {
      assert s + t == s;
    } else {
      assert (s + t)[..|s + t| - 1] == s + t[..|t| - 1];
      SuffixConcat(s, t[..|t| - 1]);
    }
  }

  lemma {:induction false} LongestConcat(s: seq<bool>, t: seq<bool>)
    ensures Longest(s + t) == Max(Max(Longest(s), Longest(t)), Suffix(s) + Prefix(t))
  {
    hide Prefix, Suffix;
    if s == [] {
      assert s + t == t;
      PrefixOfAll(s);
      PrefixShort(t);
    } else {
      assert (s + t)[1..] == s[1..] + t;
      PrefixCons(s);
      LongestConcat(s[1..], t);
      PrefixConcat(s, t);
      SuffixCons(s);
      PrefixOfAll(s[1..]);
    }
  }

  /** All three lengths of two rows in a row. */
  lemma LengthsConcat(s: seq<bool>, t: seq<bool>)
    ensures Prefix(s + t) == if Prefix(s) == |s| then Prefix(s) + Prefix(t) else Prefix(s)
    ensures Suffix(s + t) == if Suffix(t) == |t| then Suffix(t) + Suffix(s) else Suffix(t)
    ensures Longest(s + t) == Max(Max(Longest(s), Longest(t)), Suffix(s) + Prefix(t))
  {
    PrefixConcat(s, t);
    SuffixConcat(s, t);
    LongestConcat(s, t);
  }

  lemma PrefixShort(s: seq<bool>)
    ensures Prefix(s) <= Longest(s)
  {
  }

  lemma PrefixCons(s: seq<bool>)
    requires s != []
    ensures Prefix(s) == if s[0] then 1 + Prefix(s[1..]) else 0
  {
  }

  lemma SuffixCons(s: seq<bool>)
    requires s != []
    ensures var n := Suffix(s[1..]);
            Suffix(s) == if n == |s| - 1 && s[0] then |s| else n
  {
    assert s == [s[0]] + s[1..];
    SuffixConcat([s[0]], s[1..]);
    assert Suffix([s[0]]) == if s[0] then 1 else 0;
  }

  /** A row is all free seen from the left iff it is seen from the right. */
  lemma PrefixOfAll(s: seq<bool>)
    ensures Prefix(s) == |s| <==> Suffix(s) == |s|
  {
    PrefixFree(s, |s|);
    SuffixFree(s, |s|);
  }

  lemma LeftFits(s: seq<bool>, t: seq<bool>, req: int, i: int)
    requires i + req <= |s|
    ensures Fits(s + t, req, i) <==> Fits(s, req, i)
  {
    assert forall j | 0 <= j < |s| :: (s + t)[j] == s[j];
  }

  lemma RightFits(s: seq<bool>, t: seq<bool>, req: int, i: int)
    requires i >= |s|
    ensures Fits(s + t, req, i) <==> Fits(t, req, i - |s|)
  {
    assert forall j | 0 <= j < |t| :: (s + t)[|s| + j] == t[j];
    assert forall j | |s| <= j < |s| + |t| :: (s + t)[j] == t[j - |s|];
  }

  /** A place across the middle starts in the left row's right run and ends in
      the right row's left run. */
  lemma MiddleFits(s: seq<bool>, t: seq<bool>, req: int, i: int)
    requires 0 <= i <= |s| <= i + req
    ensures Fits(s + t, req, i) <==> |s| - i <= Suffix(s) && i + req - |s| <= Prefix(t)
  {
    SuffixFree(s, |s| - i);
    if i + req - |s| <= |t| {
      PrefixFree(t, i + req - |s|);
      assert forall j | 0 <= j < |s| :: (s + t)[j] == s[j];
      assert forall j | 0 <= j < |t| :: (s + t)[|s| + j] == t[j];
      assert forall j | |s| <= j < |s| + |t| :: (s + t)[j] == t[j - |s|];
    }
  }

  // ------------------------------------------------------------------ searching two rows

  /** The place in the left row is the place in both. */
  lemma PlaceLeft(s: seq<bool>, t: seq<bool>, req: int, i: int)
    requires req <= Longest(s) && RightPlace(s, req, i)
    ensures RightPlace(s + t, req, i)
  {
    LongestFits(s, req);
    LeftFits(s, t, req, i);
    forall j | 0 <= j < i ensures !Fits(s + t, req, j) {
      LeftFits(s, t, req, j);
    }
  }

  /** Without a place in the left row, one across the middle comes first. */
  lemma PlaceMiddle(s: seq<bool>, t: seq<bool>, req: int)
    requires Longest(s) < req <= Suffix(s) + Prefix(t)
    ensures RightPlace(s + t, req, |s| - Suffix(s))
  {
    LongestFits(s, req);
    SuffixShort(s);
    MiddleFits(s, t, req, |s| - Suffix(s));
    forall j | 0 <= j < |s| - Suffix(s) ensures !Fits(s + t, req, j) {
      if j + req <= |s| {
        LeftFits(s, t, req, j);
      } else {
        MiddleFits(s, t, req, j);
      }
    }
  }

  lemma SuffixShort(s: seq<bool>)
    ensures Suffix(s) <= Longest(s)
  {
    SuffixFree(s, Suffix(s));
    LongestFits(s, Suffix(s));
    assert Fits(s, Suffix(s), |s| - Suffix(s));
  }

  /** Otherwise the place, if any, is that of the right row. */
  lemma PlaceRight(s: seq<bool>, t: seq<bool>, req: int, i: int)
    requires Longest(s) < req && Suffix(s) + Prefix(t) < req && RightPlace(t, req, i)
    ensures RightPlace(s + t, req, if i == -1 then -1 else |s| + i)
  {
    LongestFits(s, req);
    forall j | i == -1 || 0 <= j < |s| + i ensures !Fits(s + t, req, j) {
      if j >= |s| {
        RightFits(s, t, req, j);
      } else if j + req <= |s| {
        LeftFits(s, t, req, j);
      } else if j >= 0 {
        MiddleFits(s, t, req, j);
      }
    }
    if i != -1 {
      RightFits(s, t, req, |s| + i);
    }
  }

  // ------------------------------------------------------------------------- painting

  /** Seats from lo up to hi become free or taken. */
  function Paint(s: seq<bool>, lo: int, hi: int, free: bool): (r: seq<bool>)
    ensures |r| == |s|
    ensures forall i | 0 <= i < |s| :: r[i] == if lo <= i < hi then free else s[i]
  {
    seq(|s|, i requires 0 <= i < |s| => if lo <= i < hi then free else s[i])
  }

  lemma PaintConcat(s: seq<bool>, t: seq<bool>, lo: int, hi: int, free: bool)
    ensures Paint(s + t, lo, hi, free) == Paint(s, lo, hi, free) + Paint(t, lo - |s|, hi - |s|, free)
  {
  }

  /** Painting what covers the whole row, or none of it. */
  lemma PaintAll(s: seq<bool>, lo: int, hi: int, free: bool)
    requires lo <= 0 && |s| <= hi
    ensures Paint(s, lo, hi, free) == Row(|s|, free)
  {
  }

  lemma PaintNone(s: seq<bool>, lo: int, hi: int, free: bool)
    requires |s| <= lo || hi <= 0 || (|s| <= 1 && (lo > 0 || hi < |s|))
    ensures Paint(s, lo, hi, free) == s
  {
  }

  function Row(n: nat, free: bool): (r: seq<bool>)
    ensures |r| == n && forall i | 0 <= i < n :: r[i] == free
  {
    seq(n, _ => free)
  }

  lemma RowConcat(m: nat, n: nat, free: bool)
    ensures Row(m, free) + Row(n, free) == Row(m + n, free)
  {
  }

  /** The three lengths of a uniform row. */
  lemma RowLengths(n: nat, free: bool)
    ensures var (r, x) := (Row(n, free), if free then n else 0);
            Prefix(r) == x && Suffix(r) == x && Longest(r) == x
  {
    var r := Row(n, free);
    PrefixFree(r, n);
    SuffixFree(r, n);
    LongestFits(r, n);
    LongestFits(r, 1);
    assert free ==> Fits(r, n, 0);
    forall i ensures Fits(r, 1, i) ==> free {
      assert 0 <= i < n ==> r[i] == free;
    }
  }
}

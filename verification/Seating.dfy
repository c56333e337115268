/** The lazily propagated segment tree of the seating benchmark.  A node's
    pending status overrides whatever its subtree says. */
module Seating {
  import opened Runs

  datatype Status = FULL | EMPTY | NORMAL

  class Node {
    const a: nat
    const b: nat
    const l: Node?
    const r: Node?
    var maxl: int
    var maxr: int
    var maxm: int
    var status: Status

    /** The seats from a up to b as this node stands for them. */
    ghost var seats: seq<bool>
    ghost const Repr: set<Node>

    /** The tree never changes its shape. */
    ghost predicate Shape()
      decreases Repr
    {
      && this in Repr && a <= b
      && (l == null <==> r == null) && (l == null <==> b - a <= 1)
      && (l != null ==>
            && l in Repr && r in Repr && l.Repr < Repr && r.Repr < Repr
            && this !in l.Repr && this !in r.Repr && l.Repr !! r.Repr
            && l.a == a && l.b == r.a == (a + b) / 2 && r.b == b
            && l.Shape() && r.Shape())
    }

    /** The node's three lengths are those of its seats. */
    ghost predicate Sums()
      reads this
    {
      |seats| == b - a && maxl == Prefix(seats) && maxr == Suffix(seats) && maxm == Longest(seats)
    }

    ghost predicate Valid()
      requires Shape()
      reads Repr
      decreases Repr
    {
      && Sums()
      && (l != null ==>
            && l.Valid() && r.Valid()
            && match status
               case FULL => seats == Row(b - a, false)
               case EMPTY => seats == Row(b - a, true)
               case NORMAL => seats == l.seats + r.seats)
    }

    /** A node of free seats above two such halves, or above nothing. */
    constructor (a: nat, b: nat, l: Node?, r: Node?)
      requires a <= b && (l == null <==> r == null) && (l == null <==> b - a <= 1)
      requires l != null ==>
                 && l.a == a && l.b == r.a == (a + b) / 2 && r.b == b && l.Repr !! r.Repr
                 && l.Shape() && r.Shape() && l.Valid() && r.Valid()
                 && l.seats == Row(l.b - l.a, true) && r.seats == Row(r.b - r.a, true)
      ensures Shape() && Valid() && fresh(Repr - (if l == null then {} else l.Repr + r.Repr))
      ensures this.a == a && this.b == b && seats == Row(b - a, true)
    {
      hide Prefix, Suffix, Longest, Row;
      this.a, this.b, this.l, this.r := a, b, l, r;
      maxl, maxr, maxm, status := b - a, b - a, b - a, NORMAL;
      seats := Row(b - a, true);
      Repr := {this} + if l == null then {} else l.Repr + r.Repr;
      RowLengths(b - a, true);
      if l != null {
        RowConcat(l.b - l.a, r.b - r.a, true);
      }
    }

    /** Every seat of this node becomes free or taken; the subtree is left alone. */
    method Overwrite(free: bool)
      requires Shape() && Valid()
      modifies this
      ensures Valid() && seats == Row(b - a, free) && status == if free then EMPTY else FULL
    {
      hide Prefix, Suffix, Longest, Row;
      RowLengths(b - a, free);
      var n := if free then b - a else 0;
      maxl, maxr, maxm := n, n, n;
      status := if free then EMPTY else FULL;
      seats := Row(b - a, free);
    }

    /** Both children become free or taken. */
    method OverwriteChildren(free: bool)
      requires Shape() && l != null && l.Valid() && r.Valid()
      modifies l, r
      ensures l.Valid() && r.Valid() && l.seats + r.seats == Row(b - a, free)
    {
      hide Sums, Row;
      l.Overwrite(free);
      assert r.Valid();
      r.Overwrite(free);
      assert l.Valid();
      RowConcat(l.b - l.a, r.b - r.a, free);
    }

    /** Hand the pending status on to the children. */
    method Propagate()
      requires Shape() && Valid() && l != null
      modifies this, l, r
      ensures Valid() && status == NORMAL && seats == old(seats)
      ensures l.Valid() && r.Valid() && seats == l.seats + r.seats
    {
      hide Prefix, Suffix, Longest, Row;
      if status == EMPTY {
        OverwriteChildren(true);
      } else if status == FULL {
        OverwriteChildren(false);
      }
      status := NORMAL;
    }

    /** The place for a party of req, as a seat number, or -1.  It is the right
        one except for a single seat on its own, which is offered to a party of
        one even when it is taken. */
    method GetLocation(req: int) returns (loc: int)
      requires Shape() && Valid()
      modifies Repr
      ensures Valid() && seats == old(seats)
      ensures loc == -1 || loc >= a
      ensures RightPlace(seats, req, if loc == -1 then -1 else loc - a) <==>
              l != null || req != 1 || Longest(seats) > 0
      decreases Repr
    {
      hide Prefix, Suffix, Longest, Row, Fits, FirstFit;
      if l == null {
        SmallPlace(seats, req);
        if req <= 1 {
          return a;
        } else {
          return -1;
        }
      }
      Propagate();
      if l.maxm >= req {
        loc := l.GetLocation(req);
        LongestFits(l.seats, req);
        PlaceLeft(l.seats, r.seats, req, loc - a);
      } else if l.maxr + r.maxl >= req {
        PlaceMiddle(l.seats, r.seats, req);
        loc := l.b - l.maxr;
      } else if r.maxm >= req {
        loc := r.GetLocation(req);
        LongestFits(r.seats, req);
        PlaceRight(l.seats, r.seats, req, loc - r.a);
      } else {
        LongestFits(r.seats, req);
        PlaceRight(l.seats, r.seats, req, -1);
        loc := -1;
      }
    }

    /** The lengths of this node from those of its children. */
    method Recompute()
      requires Shape() && l != null && l.Valid() && r.Valid() && status == NORMAL
      modifies this
      ensures Valid() && seats == l.seats + r.seats
    {
      hide Prefix, Suffix, Longest, Row, Valid;
      l.CountSums();
      r.CountSums();
      LengthsConcat(l.seats, r.seats);
      maxl := if l.maxl == l.b - l.a then l.maxl + r.maxl else l.maxl;
      maxr := if r.maxr == r.b - r.a then r.maxr + l.maxr else r.maxr;
      var m := if l.maxm >= r.maxm then l.maxm else r.maxm;
      maxm := if m >= l.maxr + r.maxl then m else l.maxr + r.maxl;
      seats := l.seats + r.seats;
      assert l.Valid() && r.Valid();
      Assemble();
    }

    /** A node is valid when its lengths are right and its children are valid. */
    lemma Assemble()
      requires Shape() && l != null && l.Valid() && r.Valid() && status == NORMAL
      requires Sums() && seats == l.seats + r.seats
      ensures Valid()
    {
    }

    /** The seats from lo up to hi, as far as this node has them, become taken
        or free. */
    method SetRange(lo: int, hi: int, full: bool)
      requires Shape() && Valid()
      modifies Repr
      ensures Valid() && seats == Paint(old(seats), lo - a, hi - a, !full)
      decreases Repr, 2
    {
      hide Prefix, Suffix, Longest, Sums, Paint, Row;
      SeatCount();
      if lo <= a && hi >= b {
        Overwrite(!full);
        PaintAll(old(seats), lo - a, hi - a, !full);
      } else if l == null {
        PaintNone(seats, lo - a, hi - a, !full);
      } else {
        SetInner(lo, hi, full);
      }
    }

    /** The part of it below the test for a leaf. */
    method SetInner(lo: int, hi: int, full: bool)
      requires Shape() && Valid() && l != null
      modifies Repr
      ensures Valid() && seats == Paint(old(seats), lo - a, hi - a, !full)
      decreases Repr, 1
    {
      hide Prefix, Suffix, Longest, Sums, Paint, Row, Valid;
      Propagate();
      l.SeatCount();
      PaintConcat(l.seats, r.seats, lo - a, hi - a, !full);
      SetBoth(lo, hi, full);
      Recompute();
    }

    /** Both children. */
    method SetBoth(lo: int, hi: int, full: bool)
      requires Shape() && l != null && l.Valid() && r.Valid()
      modifies l.Repr, r.Repr
      ensures l.Valid() && r.Valid()
      ensures l.seats == Paint(old(l.seats), lo - l.a, hi - l.a, !full)
      ensures r.seats == Paint(old(r.seats), lo - r.a, hi - r.a, !full)
      decreases Repr, 0
    {
      hide Sums, Paint, Valid;
      l.SetMet(lo, hi, full);
      r.SetMet(lo, hi, full);
    }

    /** This child, only when the range meets it. */
    method SetMet(lo: int, hi: int, full: bool)
      requires Shape() && Valid()
      modifies Repr
      ensures Valid() && seats == Paint(old(seats), lo - a, hi - a, !full)
      decreases Repr, 3
    {
      hide Sums, Paint, Valid;
      SeatCount();
      if lo < b && hi > a {
        SetRange(lo, hi, full);
      } else {
        PaintNone(seats, lo - a, hi - a, !full);
      }
    }

    lemma CountSums()
      requires Shape() && Valid()
      ensures |seats| == b - a && maxl == Prefix(seats) && maxr == Suffix(seats) && maxm == Longest(seats)
    {
    }

    lemma SeatCount()
      requires Shape() && Valid()
      ensures |seats| == b - a
    {
    }
  }

  /** init_tree */
  method InitTree(a: nat, b: nat) returns (v: Node)
    requires a <= b
    ensures v.Shape() && v.Valid() && fresh(v.Repr)
    ensures v.a == a && v.b == b && v.seats == Row(b - a, true)
    decreases b - a
  {
    hide Row;
    if b - a > 1 {
      var l := InitTree(a, (a + b) / 2);
      var r := InitTree((a + b) / 2, b);
      v := new Node(a, b, l, r);
    } else {
      v := new Node(a, b, null, null);
    }
  }

  /** At most one seat. */
  lemma SmallPlace(s: seq<bool>, req: int)
    requires |s| <= 1
    ensures RightPlace(s, req, if req <= 1 then 0 else -1) <==> req != 1 || Longest(s) > 0
  {
    LongestFits(s, req);
    if req <= 0 {
      assert Fits(s, req, 0);
    }
  }

  // ------------------------------------------------------------------ the request loop

  datatype Request = Party(p: int) | Leave(a: int, b: int)

  /** Where a plain scan from the left places a party, or -1. */
  function Scan(s: seq<bool>, req: int, i: nat): (j: int)
    requires i <= |s|
    ensures j != -1 ==> Fits(s, req, j) && i <= j
    ensures forall x | i <= x && (j == -1 || x < j) :: !Fits(s, req, x)
    decreases |s| - i
  {
    if Fits(s, req, i) then i else if i + req > |s| then -1 else Scan(s, req, i + 1)
  }

  /** One request on a plain row: the row afterwards, and whether a party is
      turned away. */
  function Serve(s: seq<bool>, q: Request): (seq<bool>, bool) {
    match q
    case Party(p) =>
      var i := Scan(s, p, 0);
      if i == -1 then (s, true) else (Paint(s, i, i + p, false), false)
    case Leave(a, b) => (Paint(s, a - 1, b, true), false)
  }

  /** How many parties a plain row turns away. */
  function TurnedAway(s: seq<bool>, qs: seq<Request>): nat
    decreases |qs|
  {
    if qs == [] then 0
    else (if Serve(s, qs[0]).1 then 1 else 0) + TurnedAway(Serve(s, qs[0]).0, qs[1..])
  }

  /** How many parties of one meet a row without a free seat. */
  function LoneRefusals(s: seq<bool>, qs: seq<Request>): nat
    decreases |qs|
  {
    if qs == [] then 0
    else (if qs[0] == Party(1) && Longest(s) == 0 then 1 else 0) + LoneRefusals(Serve(s, qs[0]).0, qs[1..])
  }

  /** The right place is what the scan finds. */
  lemma PlaceIsScan(s: seq<bool>, req: int, i: int)
    requires RightPlace(s, req, i)
    ensures i == Scan(s, req, 0)
  {
    var j := Scan(s, req, 0);
    assert i == -1 || j == -1 || i <= j;
  }

  /** No seats are left for this party. */
  ghost predicate Refuses(s: seq<bool>, q: Request) {
    q.Party? && forall j :: !Fits(s, q.p, j)
  }

  /** One request, seat by seat, counted from 1 by those who leave: a party takes
      the seats from the first place it fits on, or none at all. */
  ghost predicate Follows(s: seq<bool>, q: Request, t: seq<bool>) {
    && |t| == |s|
    && match q
       case Leave(a, b) => forall i | 0 <= i < |s| :: t[i] == (s[i] || a <= i + 1 <= b)
       case Party(p) =>
         && (Refuses(s, q) ==> t == s)
         && (forall j | FirstFit(s, p, j) :: forall i | 0 <= i < |s| :: t[i] == (s[i] && !(j <= i < j + p)))
  }

  lemma ServeFollows(s: seq<bool>, q: Request)
    ensures Follows(s, q, Serve(s, q).0) && (Serve(s, q).1 <==> Refuses(s, q))
  {
    if q.Party? {
      var i := Scan(s, q.p, 0);
      forall j | FirstFit(s, q.p, j) ensures j == i {
        PlaceIsScan(s, q.p, j);
      }
    }
  }

  /** There is nothing else that a request may do. */
  lemma FollowsOnce(s: seq<bool>, q: Request, t: seq<bool>)
    requires Follows(s, q, t)
    ensures t == Serve(s, q).0
  {
    if q.Party? {
      var i := Scan(s, q.p, 0);
      if i == -1 {
        assert Refuses(s, q);
      } else {
        assert FirstFit(s, q.p, i);
      }
    }
  }

  /** The rows of seats from before the first request to after the last. */
  ghost predicate History(rows: seq<seq<bool>>, qs: seq<Request>) {
    |rows| == |qs| + 1 && forall i | 0 <= i < |qs| :: Follows(rows[i], qs[i], rows[i + 1])
  }

  lemma HistoryTail(rows: seq<seq<bool>>, qs: seq<Request>)
    requires History(rows, qs) && qs != []
    ensures History(rows[1..], qs[1..]) && rows[1] == Serve(rows[0], qs[0]).0
    ensures Serve(rows[0], qs[0]).1 <==> Refuses(rows[0], qs[0])
    ensures (qs[0] == Party(1) && Longest(rows[0]) == 0) <==> Refuses(rows[0], qs[0]) && qs[0].p == 1
  {
    hide Serve, Longest, Refuses;
    assert Follows(rows[0], qs[0], rows[0 + 1]);
    FollowsOnce(rows[0], qs[0], rows[1]);
    ServeFollows(rows[0], qs[0]);
    NoneFree(rows[0], qs[0]);
    forall i | 0 <= i < |qs[1..]| ensures Follows(rows[1..][i], qs[1..][i], rows[1..][i + 1]) {
      assert Follows(rows[i + 1], qs[i + 1], rows[i + 1 + 1]);
    }
  }

  lemma NoneFree(s: seq<bool>, q: Request)
    ensures (q == Party(1) && Longest(s) == 0) <==> Refuses(s, q) && q.p == 1
  {
    LongestFits(s, 1);
  }

  /** What is counted is every party that finds no place. */
  lemma {:induction false} RefusalsCounted(rows: seq<seq<bool>>, qs: seq<Request>, refusals: seq<bool>)
    requires History(rows, qs) && |refusals| == |qs|
    requires forall i | 0 <= i < |qs| :: refusals[i] <==> Refuses(rows[i], qs[i])
    ensures TurnedAway(rows[0], qs) == multiset(refusals)[true]
    decreases |qs|
  {
    if qs != [] {
      HistoryTail(rows, qs);
      hide Serve, Longest, Refuses, Follows, History;
      var (rows', qs', refusals') := (rows[1..], qs[1..], refusals[1..]);
      assert forall i | 0 <= i < |qs'| :: rows'[i] == rows[i + 1] && qs'[i] == qs[i + 1];
      RefusalsCounted(rows', qs', refusals');
      assert refusals == [refusals[0]] + refusals';
    }
  }

  /** And the parties of one among them. */
  lemma {:induction false} LoneCounted(rows: seq<seq<bool>>, qs: seq<Request>, lone: seq<bool>)
    requires History(rows, qs) && |lone| == |qs|
    requires forall i | 0 <= i < |qs| :: lone[i] <==> Refuses(rows[i], qs[i]) && qs[i].p == 1
    ensures LoneRefusals(rows[0], qs) == multiset(lone)[true]
    decreases |qs|
  {
    if qs != [] {
      HistoryTail(rows, qs);
      hide Serve, Longest, Refuses, Follows, History;
      var (rows', qs', lone') := (rows[1..], qs[1..], lone[1..]);
      assert forall i | 0 <= i < |qs'| :: rows'[i] == rows[i + 1] && qs'[i] == qs[i + 1];
      LoneCounted(rows', qs', lone');
      assert lone == [lone[0]] + lone';
    }
  }

  /** One request on the tree does what it does on a plain row, except that a
      lone seat, taken, is given to a party of one again. */
  method ServeRequest(root: Node, q: Request) returns (refused: bool)
    requires root.Shape() && root.Valid() && root.a == 0
    modifies root.Repr
    ensures root.Valid() && root.seats == Serve(old(root.seats), q).0
    ensures refused <==> Serve(old(root.seats), q).1 && !LoneRefusal(old(root.seats), q)
    ensures Follows(old(root.seats), q, root.seats)
    ensures refused <==> Refuses(old(root.seats), q) && !(|old(root.seats)| < 2 && q == Party(1))
  {
    hide Paint, Longest, Prefix, Suffix, Follows, Refuses;
    LoneIsRefused(root.seats, q);
    ServeFollows(root.seats, q);
    refused := false;
    root.SeatCount();
    match q {
      case Party(p) =>
        var loc := root.GetLocation(p);
        ghost var s := root.seats;
        if LoneRefusal(s, q) {
          TakenAgain(s, loc);
        } else {
          PlaceIsScan(s, p, loc);
        }
        if loc == -1 {
          refused := true;
        } else {
          root.SetRange(loc, loc + p, true);
        }
      case Leave(a, b) =>
        root.SetRange(a - 1, b, false);
    }
  }

  /** A party of one meets at most one seat, and none that is free. */
  ghost predicate LoneRefusal(s: seq<bool>, q: Request) {
    |s| < 2 && q == Party(1) && Longest(s) == 0
  }

  lemma LoneIsRefused(s: seq<bool>, q: Request)
    ensures LoneRefusal(s, q) <==> |s| < 2 && q == Party(1) && Refuses(s, q)
  {
    NoneFree(s, q);
  }

  lemma TakenAgain(s: seq<bool>, loc: int)
    requires |s| < 2 && Longest(s) == 0
    ensures Scan(s, 1, 0) == -1 && !RightPlace(s, 1, 0) && RightPlace(s, 1, -1)
    ensures Paint(s, 0, 1, false) == s
  {
    LongestFits(s, 1);
    assert forall i :: !Fits(s, 1, i);
    assert !Fits(s, 1, 0);
  }

  /** The shortfall exists: of two parties of one, a plain row of one seat turns
      the second away. */
  lemma LoneSeatTwice()
    ensures LoneRefusals(Row(1, true), [Party(1), Party(1)]) == 1
    ensures TurnedAway(Row(1, true), [Party(1), Party(1)]) == 1
  {
    hide Paint, Longest;
    var (free, taken) := (Row(1, true), Row(1, false));
    RowLengths(1, true);
    RowLengths(1, false);
    assert Fits(free, 1, 0);
    PaintAll(free, 0, 1, false);
    TakenAgain(taken, 0);
    assert [Party(1), Party(1)][1..] == [Party(1)];
    assert [Party(1)][1..] == [];
    assert Serve(free, Party(1)) == (taken, false) && Serve(taken, Party(1)) == (taken, true);
    assert LoneRefusals(taken, [Party(1)]) == 1 && TurnedAway(taken, [Party(1)]) == 1;
  }

  /** The benchmark's loop over its requests.  It turns away as many parties as
      a plain row does, except that with fewer than two seats it never turns
      away a party of one. */
  method Simulate(n: nat, qs: seq<Request>) returns (numTurnedAway: nat)
    ensures numTurnedAway + (if n < 2 then LoneRefusals(Row(n, true), qs) else 0) == TurnedAway(Row(n, true), qs)
  {
    var root := InitTree(0, n);
    numTurnedAway := 0;
    var i := 0;
    while i < |qs|
      invariant i <= |qs| && root.Shape() && root.Valid() && fresh(root.Repr) && root.a == 0 && root.b == n
      invariant |root.seats| == n
      invariant numTurnedAway
                + (if n < 2 then LoneRefusals(Row(n, true), qs) - LoneRefusals(root.seats, qs[i..]) else 0)
                + TurnedAway(root.seats, qs[i..]) == TurnedAway(Row(n, true), qs)
    {
      assert qs[i..][0] == qs[i] && qs[i..][1..] == qs[i + 1..];
      root.SeatCount();
      var refused := ServeRequest(root, qs[i]);
      root.SeatCount();
      if refused {
        numTurnedAway := numTurnedAway + 1;
      }
      i := i + 1;
    }
  }
}

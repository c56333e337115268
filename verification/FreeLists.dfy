/** The free lists as they lie in memory: the first twelve bytes of every free
    block and of every sentinel hold the words prev, next and is_dummy. */
module FreeLists {
  import opened BuddyHeap
  import opened Sequences
  import opened Words

  /** Each sentinel is a list node of three words. */
  const NODE_SIZE: nat := 12

  function First(brk: nat, k: nat): nat {
    brk + 2 * NODE_SIZE * k
  }

  function Last(brk: nat, k: nat): nat {
    brk + 2 * NODE_SIZE * k + NODE_SIZE
  }

  /** Where the sentinels end and, rounded up to a slot, the heap begins. */
  function HeapStart(brk: nat): nat {
    (brk + 2 * NODE_SIZE * NUM_BINS + 15) / 16 * 16
  }

  /** The first slot behind the 64 sentinels of twelve bytes. */
  lemma HeapStartFirst(brk: nat)
    ensures HeapStart(brk) % 16 == 0 && brk + 64 * 12 <= HeapStart(brk) < brk + 64 * 12 + 16
  {
  }

  predicate Fits(m: seq<Byte>, n: nat) {
    n + NODE_SIZE <= |m|
  }

  function Prev(m: seq<Byte>, n: nat): Word
    requires Fits(m, n)
  {
    WordAt(m, n)
  }

  function Next(m: seq<Byte>, n: nat): Word
    requires Fits(m, n)
  {
    WordAt(m, n + 4)
  }

  function IsDummy(m: seq<Byte>, n: nat): Word
    requires Fits(m, n)
  {
    WordAt(m, n + 8)
  }

  /** The addresses at which nodes lie; any two are at least a node apart. */
  predicate NodeAddr(m: seq<Byte>, brk: nat, n: nat) {
    && Fits(m, n)
    && ((brk <= n < brk + 2 * NODE_SIZE * NUM_BINS && (n - brk) % NODE_SIZE == 0)
        || (HeapStart(brk) <= n && n % 16 == 0))
  }

  // -------------------------------------------------------------------- one chain

  ghost predicate Link(m: seq<Byte>, c: seq<nat>, i: nat)
    requires i + 1 < |c|
  {
    && Fits(m, c[i]) && Fits(m, c[i + 1])
    && Next(m, c[i]) == c[i + 1] && Prev(m, c[i + 1]) == c[i]
  }

  /** The nodes of c are linked in this order, forwards and backwards. */
  ghost predicate Chain(m: seq<Byte>, brk: nat, c: seq<nat>) {
    && NoDuplicates(c)
    && (forall i | 0 <= i < |c| :: NodeAddr(m, brk, c[i]))
    && (forall i: nat {:trigger Link(m, c, i)} | i + 1 < |c| :: Link(m, c, i))
  }

  ghost predicate SameNode(m: seq<Byte>, m': seq<Byte>, n: nat)
    requires Fits(m, n) && |m| == |m'|
  {
    Prev(m', n) == Prev(m, n) && Next(m', n) == Next(m, n) && IsDummy(m', n) == IsDummy(m, n)
  }

  lemma NodeKept(m: seq<Byte>, m': seq<Byte>, n: nat)
    requires Fits(m, n) && |m'| == |m| && forall a | n <= a < n + NODE_SIZE :: m'[a] == m[a]
    ensures SameNode(m, m', n)
  {
    hide WordAt;
    SameWord(m, m', n);
    SameWord(m, m', n + 4);
    SameWord(m, m', n + 8);
  }

  lemma ChainFrame(m: seq<Byte>, m': seq<Byte>, brk: nat, c: seq<nat>)
    requires Chain(m, brk, c) && |m| == |m'|
    requires forall i | 0 <= i < |c| :: SameNode(m, m', c[i])
    ensures Chain(m', brk, c)
  {
    forall i: nat | i + 1 < |c| ensures Link(m', c, i) {
      assert Link(m, c, i);
    }
  }

  // ------------------------------------------------------------- append and remove

  /** list_append of p behind first stores inside memory only. */
  ghost predicate CanAppend(m: seq<Byte>, first: nat, p: nat) {
    && first < WORDS && p < WORDS
    && Fits(m, p) && Fits(m, first) && Fits(m, Next(m, first))
    && (p + NODE_SIZE <= first || first + NODE_SIZE <= p)
  }

  /** list_remove of p stores inside memory only. */
  ghost predicate CanRemove(m: seq<Byte>, p: nat) {
    Fits(m, p) && Fits(m, Prev(m, p)) && Fits(m, Next(m, p))
  }

  /** The stores of list_append, in their order. */
  ghost function Appended(m: seq<Byte>, first: nat, p: nat): seq<Byte>
    requires CanAppend(m, first, p)
  {
    var next := Next(m, first);
    var m1 := Stored(Stored(Stored(m, p + 8, 0), p, first), p + 4, next);
    Stored(Stored(m1, next, p), first + 4, p)
  }

  /** The stores of list_remove, in their order. */
  ghost function Removed(m: seq<Byte>, p: nat): seq<Byte>
    requires CanRemove(m, p)
  {
    Stored(Stored(m, Next(m, p), Prev(m, p)), Prev(m, p) + 4, Next(m, p))
  }

  /** Two nodes are the same or share no byte. */
  predicate Clear(n: nat, q: nat) {
    n == q || n + NODE_SIZE <= q || q + NODE_SIZE <= n
  }

  lemma SlotsApart(n: nat, q: nat)
    requires n % 16 == 0 && q % 16 == 0 && n < q
    ensures n + 16 <= q
  {
  }

  lemma WordsApart(x: nat, y: nat)
    requires x % NODE_SIZE == 0 && y % NODE_SIZE == 0 && x < y
    ensures x + NODE_SIZE <= y
  {
  }

  lemma NodesClear(m: seq<Byte>, brk: nat, n: nat, q: nat)
    requires NodeAddr(m, brk, n) && NodeAddr(m, brk, q)
    ensures Clear(n, q)
  {
    if n < q {
      NodeBelow(m, brk, n, q);
    } else if q < n {
      NodeBelow(m, brk, q, n);
    }
  }

  lemma NodeBelow(m: seq<Byte>, brk: nat, n: nat, q: nat)
    requires NodeAddr(m, brk, n) && NodeAddr(m, brk, q) && n < q
    ensures n + NODE_SIZE <= q
  {
    HeapStartFirst(brk);
    hide HeapStart;
    if n >= HeapStart(brk) {
      SlotsApart(n, q);
    } else if q < HeapStart(brk) {
      WordsApart(n - brk, q - brk);
    } else {
      WordsApart(n - brk, 64 * 12);
    }
  }

  /** What list_append of p behind first does to node n. */
  ghost predicate NodeAppended(m: seq<Byte>, m': seq<Byte>, first: nat, p: nat, n: nat)
    requires Fits(m, first) && Fits(m, n) && |m'| == |m|
  {
    if n == p then Prev(m', n) == first && Next(m', n) == Next(m, first) && IsDummy(m', n) == 0
    else
      && Next(m', n) == (if n == first then p else Next(m, n))
      && Prev(m', n) == (if n == Next(m, first) then p else Prev(m, n))
      && IsDummy(m', n) == IsDummy(m, n)
  }

  /** What one store into node q does to node n. */
  lemma StoredNode(m: seq<Byte>, q: nat, o: nat, w: Word, n: nat)
    requires Fits(m, q) && Fits(m, n) && (o == 0 || o == 4 || o == 8)
    requires Clear(n, q)
    ensures var m' := Stored(m, q + o, w);
            && Prev(m', n) == (if q == n && o == 0 then w else Prev(m, n))
            && Next(m', n) == (if q == n && o == 4 then w else Next(m, n))
            && IsDummy(m', n) == (if q == n && o == 8 then w else IsDummy(m, n))
  {
    hide Stored, WordAt;
    StoredAt(m, q + o, w, n);
    StoredAt(m, q + o, w, n + 4);
    StoredAt(m, q + o, w, n + 8);
  }

  /** The three stores that fill node p. */
  lemma FilledNode(m: seq<Byte>, p: nat, prev: Word, next: Word, dummy: Word, n: nat)
    requires Fits(m, p) && Fits(m, n) && Clear(n, p)
    ensures var m' := Stored(Stored(Stored(m, p + 8, dummy), p, prev), p + 4, next);
            if n == p then Prev(m', n) == prev && Next(m', n) == next && IsDummy(m', n) == dummy
            else SameNode(m, m', n)
  {
    hide Stored, Prev, Next, IsDummy, Clear;
    var m1 := Stored(m, p + 8, dummy);
    StoredNode(m, p, 8, dummy, n);
    StoredNode(m1, p, 0, prev, n);
    StoredNode(Stored(m1, p, prev), p, 4, next, n);
  }

  /** The two stores that link node p, filled in m, behind first. */
  lemma LinkedNode(m: seq<Byte>, first: nat, next: nat, p: Word, n: nat)
    requires Fits(m, first) && Fits(m, next) && Fits(m, n) && Clear(n, first) && Clear(n, next) && first != next
    ensures var m' := Stored(Stored(m, next, p), first + 4, p);
            if n == first then Prev(m', n) == Prev(m, n) && Next(m', n) == p && IsDummy(m', n) == IsDummy(m, n)
            else if n == next then Prev(m', n) == p && Next(m', n) == Next(m, n) && IsDummy(m', n) == IsDummy(m, n)
            else SameNode(m, m', n)
  {
    hide Stored, Prev, Next, IsDummy, Clear;
    StoredNode(m, next, 0, p, n);
    StoredNode(Stored(m, next, p), first, 4, p, n);
  }

  lemma AppendedNode(m: seq<Byte>, first: nat, p: nat, n: nat)
    requires CanAppend(m, first, p) && Fits(m, n)
    requires Clear(n, first) && Clear(n, p) && Clear(n, Next(m, first))
    requires first != p && first != Next(m, first) && p != Next(m, first)
    ensures NodeAppended(m, Appended(m, first, p), first, p, n)
  {
    var next := Next(m, first);
    var m3 := Stored(Stored(Stored(m, p + 8, 0), p, first), p + 4, next);
    hide Stored, Prev, Next, IsDummy, Clear;
    FilledNode(m, p, first, next, 0, n);
    LinkedNode(m3, first, next, p, n);
  }

  lemma AppendedAt(m: seq<Byte>, brk: nat, first: nat, p: nat, n: nat)
    requires NodeAddr(m, brk, first) && NodeAddr(m, brk, p) && NodeAddr(m, brk, Next(m, first))
    requires NodeAddr(m, brk, n) && first < WORDS && p < WORDS
    requires first != p && first != Next(m, first) && p != Next(m, first)
    ensures CanAppend(m, first, p)
    ensures NodeAppended(m, Appended(m, first, p), first, p, n)
  {
    hide Next, Appended, NodeAppended, HeapStart;
    NodesClear(m, brk, first, p);
    NodesClear(m, brk, n, first);
    NodesClear(m, brk, n, p);
    NodesClear(m, brk, n, Next(m, first));
    AppendedNode(m, first, p, n);
  }

  /** What list_remove of p does to node n. */
  ghost predicate NodeRemoved(m: seq<Byte>, m': seq<Byte>, p: nat, n: nat)
    requires Fits(m, p) && Fits(m, n) && |m'| == |m|
  {
    && Next(m', n) == (if n == Prev(m, p) then Next(m, p) else Next(m, n))
    && Prev(m', n) == (if n == Next(m, p) then Prev(m, p) else Prev(m, n))
    && IsDummy(m', n) == IsDummy(m, n)
  }

  /** A store to the first word of one node and to the second of another. */
  lemma TwoStores(m: seq<Byte>, q: nat, w: Word, r: nat, x: Word, n: nat)
    requires Fits(m, q) && Fits(m, r) && Fits(m, n) && Clear(n, q) && Clear(n, r)
    ensures var m' := Stored(Stored(m, q, w), r + 4, x);
            && Prev(m', n) == (if q == n then w else Prev(m, n))
            && Next(m', n) == (if r == n then x else Next(m, n))
            && IsDummy(m', n) == IsDummy(m, n)
  {
    hide Stored, Prev, Next, IsDummy, Clear;
    StoredNode(m, q, 0, w, n);
    StoredNode(Stored(m, q, w), r, 4, x, n);
  }

  lemma RemovedNode(m: seq<Byte>, p: nat, n: nat)
    requires CanRemove(m, p) && Fits(m, n) && Clear(n, Prev(m, p)) && Clear(n, Next(m, p))
    ensures NodeRemoved(m, Removed(m, p), p, n)
  {
    hide Stored, Prev, Next, IsDummy, Clear;
    TwoStores(m, Next(m, p), Prev(m, p), Prev(m, p), Next(m, p), n);
  }

  lemma RemovedAt(m: seq<Byte>, brk: nat, p: nat, n: nat)
    requires NodeAddr(m, brk, p) && NodeAddr(m, brk, Prev(m, p)) && NodeAddr(m, brk, Next(m, p))
    requires NodeAddr(m, brk, n)
    ensures NodeRemoved(m, Removed(m, p), p, n)
  {
    hide Prev, Next, Removed, NodeRemoved, HeapStart;
    NodesClear(m, brk, n, Prev(m, p));
    NodesClear(m, brk, n, Next(m, p));
    RemovedNode(m, p, n);
  }

  lemma ChainAppend(m: seq<Byte>, m': seq<Byte>, brk: nat, c: seq<nat>, p: nat)
    requires Chain(m, brk, c) && |c| >= 2 && |m'| == |m|
    requires NodeAddr(m, brk, p) && p !in c
    requires forall n: nat {:trigger NodeAppended(m, m', c[0], p, n)} | NodeAddr(m, brk, n) ::
               NodeAppended(m, m', c[0], p, n)
    ensures Chain(m', brk, InsertSecond(c, p))
  {
    assert Link(m, c, 0);
    var d := InsertSecond(c, p);
    forall i: nat | i + 1 < |d| ensures Link(m', d, i) {
      assert NodeAddr(m, brk, d[i]) && NodeAddr(m, brk, d[i + 1]);
      assert NodeAppended(m, m', c[0], p, d[i]) && NodeAppended(m, m', c[0], p, d[i + 1]);
      assert i >= 2 ==> Link(m, c, i - 1);
    }
  }

  lemma ChainRemove(m: seq<Byte>, m': seq<Byte>, brk: nat, c: seq<nat>, i: nat)
    requires Chain(m, brk, c) && 0 < i < |c| - 1 && |m'| == |m|
    requires forall n: nat {:trigger NodeRemoved(m, m', c[i], n)} | NodeAddr(m, brk, n) ::
               NodeRemoved(m, m', c[i], n)
    ensures Chain(m', brk, Without(c, i))
  {
    assert Link(m, c, i) && Link(m, c, i - 1);
    var d := Without(c, i);
    forall j: nat | j + 1 < |d| ensures Link(m', d, j) {
      assert NodeAddr(m, brk, d[j]) && NodeAddr(m, brk, d[j + 1]);
      assert NodeRemoved(m, m', c[i], d[j]) && NodeRemoved(m, m', c[i], d[j + 1]);
      assert Link(m, c, if j < i - 1 then j else j + 1);
    }
  }

  // --------------------------------------------------------------------- all lists

  function ChainOf(brk: nat, s: seq<nat>, k: nat): seq<nat> {
    [First(brk, k)] + s + [Last(brk, k)]
  }

  ghost predicate SentinelsOk(m: seq<Byte>, brk: nat, k: nat) {
    && Fits(m, First(brk, k)) && Fits(m, Last(brk, k))
    && IsDummy(m, First(brk, k)) == 1 && IsDummy(m, Last(brk, k)) == 1
    && Prev(m, First(brk, k)) == 0 && Next(m, Last(brk, k)) == 0
  }

  ghost predicate MembersOk(m: seq<Byte>, brk: nat, s: seq<nat>) {
    forall i | 0 <= i < |s| ::
      NodeAddr(m, brk, s[i]) && HeapStart(brk) <= s[i] && IsDummy(m, s[i]) == 0
  }

  /** Bin k of memory is the list s. */
  ghost predicate BinOk(m: seq<Byte>, brk: nat, s: seq<nat>, k: nat) {
    Chain(m, brk, ChainOf(brk, s, k)) && SentinelsOk(m, brk, k) && MembersOk(m, brk, s)
  }

  /** Memory holds exactly these lists, one in every bin. */
  ghost predicate ListsOk(m: seq<Byte>, brk: nat, bins: seq<seq<nat>>) {
    && |bins| == NUM_BINS && |m| <= WORDS
    && (forall k | 0 <= k < NUM_BINS :: BinOk(m, brk, bins[k], k))
    && (forall j, k {:trigger Disjoint(bins[j], bins[k])} | 0 <= j < k < NUM_BINS :: Disjoint(bins[j], bins[k]))
  }

  /** A bin is untouched when only words of other nodes change. */
  lemma BinFrame(m: seq<Byte>, m': seq<Byte>, brk: nat, s: seq<nat>, k: nat)
    requires BinOk(m, brk, s, k) && |m| == |m'|
    requires forall i | 0 <= i < |ChainOf(brk, s, k)| :: SameNode(m, m', ChainOf(brk, s, k)[i])
    ensures BinOk(m', brk, s, k)
  {
    var c := ChainOf(brk, s, k);
    ChainFrame(m, m', brk, c);
    assert c[0] == First(brk, k) && c[|c| - 1] == Last(brk, k);
    assert forall i | 0 <= i < |s| :: c[i + 1] == s[i];
  }

  /** The two sentinels of a bin, and those of different bins, are distinct. */
  lemma SentinelsApart(brk: nat, j: nat, k: nat)
    requires j < NUM_BINS && k < NUM_BINS
    ensures First(brk, j) != Last(brk, k)
    ensures j != k ==> First(brk, j) != First(brk, k) && Last(brk, j) != Last(brk, k)
    ensures First(brk, j) < HeapStart(brk) && Last(brk, j) < HeapStart(brk)
  {
  }

  /** They lie between the program break and the heap. */
  lemma SentinelsInside(brk: nat, k: nat)
    requires k < NUM_BINS
    ensures brk <= First(brk, k) && First(brk, k) + NODE_SIZE <= HeapStart(brk)
    ensures brk <= Last(brk, k) && Last(brk, k) + NODE_SIZE <= HeapStart(brk)
  {
  }

  ghost predicate Fresh(bins: seq<seq<nat>>, p: nat) {
    forall k | 0 <= k < |bins| :: p !in bins[k]
  }

  /** The ends of a bin's chain. */
  lemma ChainEnds(m: seq<Byte>, brk: nat, s: seq<nat>, k: nat)
    requires BinOk(m, brk, s, k)
    ensures NodeAddr(m, brk, First(brk, k)) && NodeAddr(m, brk, Last(brk, k))
    ensures var second := Next(m, First(brk, k));
            && second == (if s == [] then Last(brk, k) else s[0])
            && NodeAddr(m, brk, second) && second != First(brk, k)
    ensures Prev(m, Last(brk, k)) == if s == [] then First(brk, k) else s[|s| - 1]
  {
    var c := ChainOf(brk, s, k);
    assert Link(m, c, 0) && Link(m, c, |c| - 2);
    assert c[0] == First(brk, k) && c[|c| - 1] == Last(brk, k);
  }

  /** p is a slot of the heap that no bin lists yet. */
  ghost predicate CanList(m: seq<Byte>, brk: nat, bins: seq<seq<nat>>, k: nat, p: nat) {
    && ListsOk(m, brk, bins) && k < NUM_BINS && Fresh(bins, p)
    && NodeAddr(m, brk, p) && HeapStart(brk) <= p < WORDS
  }

  /** list_append pushes p on the front of bin k and leaves the others alone. */
  lemma AppendOk(m: seq<Byte>, brk: nat, bins: seq<seq<nat>>, k: nat, p: nat)
    requires CanList(m, brk, bins, k, p)
    ensures CanAppend(m, First(brk, k), p)
    ensures ListsOk(Appended(m, First(brk, k), p), brk, Push(bins, k, p))
  {
    assert BinOk(m, brk, bins[k], k);
    ChainEnds(m, brk, bins[k], k);
    SentinelsApart(brk, k, k);
    var f := First(brk, k);
    AppendedAt(m, brk, f, p, f);
    var m', bins' := Appended(m, f, p), Push(bins, k, p);
    forall n: nat | NodeAddr(m, brk, n) ensures NodeAppended(m, m', f, p, n) {
      AppendedAt(m, brk, f, p, n);
    }
    forall j | 0 <= j < NUM_BINS ensures BinOk(m', brk, bins'[j], j) {
      if j == k {
        AppendHere(m, m', brk, bins[k], k, p);
      } else {
        AppendElsewhere(m, m', brk, bins, k, p, j);
      }
    }
    PushDisjoint(bins, k, p);
  }

  lemma PushDisjoint(bins: seq<seq<nat>>, k: nat, p: nat)
    requires |bins| == NUM_BINS && k < NUM_BINS && Fresh(bins, p)
    requires forall i, j {:trigger Disjoint(bins[i], bins[j])} | 0 <= i < j < NUM_BINS :: Disjoint(bins[i], bins[j])
    ensures var bins' := Push(bins, k, p);
            forall i, j {:trigger Disjoint(bins'[i], bins'[j])} | 0 <= i < j < NUM_BINS :: Disjoint(bins'[i], bins'[j])
  {
    var bins' := Push(bins, k, p);
    forall i, j | 0 <= i < j < NUM_BINS ensures Disjoint(bins'[i], bins'[j]) {
      assert Disjoint(bins[i], bins[j]);
    }
  }

  lemma AppendHere(m: seq<Byte>, m': seq<Byte>, brk: nat, s: seq<nat>, k: nat, p: nat)
    requires BinOk(m, brk, s, k) && p !in s && k < NUM_BINS && |m'| == |m|
    requires NodeAddr(m, brk, p) && HeapStart(brk) <= p
    requires forall n: nat {:trigger NodeAppended(m, m', First(brk, k), p, n)} | NodeAddr(m, brk, n) ::
               NodeAppended(m, m', First(brk, k), p, n)
    ensures BinOk(m', brk, [p] + s, k)
  {
    var c := ChainOf(brk, s, k);
    SentinelsApart(brk, k, k);
    assert c[0] == First(brk, k);
    assert p !in c;
    ChainAppend(m, m', brk, c, p);
    assert ChainOf(brk, [p] + s, k) == InsertSecond(c, p);
    ChainEnds(m, brk, s, k);
    assert NodeAppended(m, m', First(brk, k), p, First(brk, k));
    assert NodeAppended(m, m', First(brk, k), p, Last(brk, k));
    forall i | 0 <= i < |[p] + s| ensures IsDummy(m', ([p] + s)[i]) == 0 {
      assert NodeAppended(m, m', First(brk, k), p, ([p] + s)[i]);
    }
  }

  lemma AppendElsewhere(m: seq<Byte>, m': seq<Byte>, brk: nat, bins: seq<seq<nat>>, k: nat, p: nat, j: nat)
    requires ListsOk(m, brk, bins) && k < NUM_BINS && Fresh(bins, p) && |m'| == |m|
    requires NodeAddr(m, brk, p) && HeapStart(brk) <= p && j < NUM_BINS && j != k
    requires NodeAddr(m, brk, First(brk, k))
    requires forall n: nat {:trigger NodeAppended(m, m', First(brk, k), p, n)} | NodeAddr(m, brk, n) ::
               NodeAppended(m, m', First(brk, k), p, n)
    ensures BinOk(m', brk, bins[j], j)
  {
    assert BinOk(m, brk, bins[k], k) && BinOk(m, brk, bins[j], j);
    ChainEnds(m, brk, bins[k], k);
    var c := ChainOf(brk, bins[j], j);
    forall i | 0 <= i < |c| ensures SameNode(m, m', c[i]) {
      SentinelsApart(brk, j, k);
      SentinelsApart(brk, k, j);
      assert if j < k then Disjoint(bins[j], bins[k]) else Disjoint(bins[k], bins[j]);
      assert NodeAppended(m, m', First(brk, k), p, c[i]);
    }
    BinFrame(m, m', brk, bins[j], j);
  }

  /** A member's neighbours. */
  lemma MemberLinks(m: seq<Byte>, brk: nat, s: seq<nat>, k: nat, i: nat)
    requires BinOk(m, brk, s, k) && i < |s| && k < NUM_BINS
    ensures NodeAddr(m, brk, s[i]) && NodeAddr(m, brk, Prev(m, s[i])) && NodeAddr(m, brk, Next(m, s[i]))
    ensures Prev(m, s[i]) == if i == 0 then First(brk, k) else s[i - 1]
    ensures Next(m, s[i]) == if i + 1 == |s| then Last(brk, k) else s[i + 1]
  {
    var c := ChainOf(brk, s, k);
    assert Link(m, c, i) && Link(m, c, i + 1);
    assert c[i + 1] == s[i];
    assert NodeAddr(m, brk, c[i]) && NodeAddr(m, brk, c[i + 2]);
  }

  /** list_remove takes p out of its bin and leaves the others alone. */
  lemma RemoveOk(m: seq<Byte>, brk: nat, bins: seq<seq<nat>>, k: nat, p: nat)
    requires ListsOk(m, brk, bins) && k < NUM_BINS && p in bins[k]
    ensures CanRemove(m, p)
    ensures ListsOk(Removed(m, p), brk, Unlink(bins, k, p))
  {
    assert BinOk(m, brk, bins[k], k);
    var i :| 0 <= i < |bins[k]| && bins[k][i] == p;
    MemberLinks(m, brk, bins[k], k, i);
    MembersDistinct(m, brk, bins[k], k);
    RemoveAt(bins[k], i);
    var m', bins' := Removed(m, p), Unlink(bins, k, p);
    forall n: nat | NodeAddr(m, brk, n) ensures NodeRemoved(m, m', p, n) {
      RemovedAt(m, brk, p, n);
    }
    forall j | 0 <= j < NUM_BINS ensures BinOk(m', brk, bins'[j], j) {
      if j == k {
        RemoveHere(m, m', brk, bins[k], k, i);
      } else {
        RemoveElsewhere(m, m', brk, bins, k, i, j);
      }
    }
    RemoveDisjoint(bins, k, p);
  }

  lemma RemoveDisjoint(bins: seq<seq<nat>>, k: nat, p: nat)
    requires |bins| == NUM_BINS && k < NUM_BINS && NoDuplicates(bins[k])
    requires forall i, j {:trigger Disjoint(bins[i], bins[j])} | 0 <= i < j < NUM_BINS :: Disjoint(bins[i], bins[j])
    ensures var bins' := Unlink(bins, k, p);
            forall i, j {:trigger Disjoint(bins'[i], bins'[j])} | 0 <= i < j < NUM_BINS :: Disjoint(bins'[i], bins'[j])
  {
    RemoveFacts(bins[k], p);
    var bins' := Unlink(bins, k, p);
    forall i, j | 0 <= i < j < NUM_BINS ensures Disjoint(bins'[i], bins'[j]) {
      assert Disjoint(bins[i], bins[j]);
      DisjointSubset(bins[i], bins[j], bins'[i], bins'[j]);
    }
  }

  lemma MembersDistinct(m: seq<Byte>, brk: nat, s: seq<nat>, k: nat)
    requires BinOk(m, brk, s, k)
    ensures NoDuplicates(s)
  {
    var c := ChainOf(brk, s, k);
    forall i, j | 0 <= i < j < |s| ensures s[i] != s[j] {
      assert c[i + 1] != c[j + 1];
    }
  }

  /** What is left of a bin from which a member was removed. */
  lemma RestOk(m: seq<Byte>, m': seq<Byte>, brk: nat, s: seq<nat>, i: nat)
    requires MembersOk(m, brk, s) && i < |s| && |m'| == |m| && Fits(m, s[i])
    requires forall n: nat {:trigger NodeRemoved(m, m', s[i], n)} | NodeAddr(m, brk, n) ::
               NodeRemoved(m, m', s[i], n)
    ensures MembersOk(m', brk, s[..i] + s[i + 1..])
  {
    hide IsDummy, Next, Prev, HeapStart;
    var t := s[..i] + s[i + 1..];
    forall j | 0 <= j < |t| ensures NodeAddr(m', brk, t[j]) && HeapStart(brk) <= t[j] && IsDummy(m', t[j]) == 0 {
      assert t[j] == s[if j < i then j else j + 1];
      assert NodeRemoved(m, m', s[i], t[j]);
    }
  }

  lemma RemoveHere(m: seq<Byte>, m': seq<Byte>, brk: nat, s: seq<nat>, k: nat, i: nat)
    requires BinOk(m, brk, s, k) && i < |s| && k < NUM_BINS && |m'| == |m| && Fits(m, s[i])
    requires forall n: nat {:trigger NodeRemoved(m, m', s[i], n)} | NodeAddr(m, brk, n) ::
               NodeRemoved(m, m', s[i], n)
    ensures BinOk(m', brk, s[..i] + s[i + 1..], k)
  {
    hide Chain, MembersOk, IsDummy, Next, Prev, HeapStart;
    var c, t := ChainOf(brk, s, k), s[..i] + s[i + 1..];
    assert c[i + 1] == s[i];
    ChainRemove(m, m', brk, c, i + 1);
    assert ChainOf(brk, t, k) == Without(c, i + 1);
    ChainEnds(m, brk, s, k);
    MemberLinks(m, brk, s, k, i);
    MembersAbove(m, brk, s, k);
    assert NodeRemoved(m, m', s[i], First(brk, k));
    assert NodeRemoved(m, m', s[i], Last(brk, k));
    RestOk(m, m', brk, s, i);
  }

  /** No member is a sentinel. */
  lemma MembersAbove(m: seq<Byte>, brk: nat, s: seq<nat>, k: nat)
    requires MembersOk(m, brk, s) && k < NUM_BINS
    ensures forall i | 0 <= i < |s| :: s[i] != First(brk, k) && s[i] != Last(brk, k)
    ensures First(brk, k) != Last(brk, k)
  {
    SentinelsInside(brk, k);
  }

  lemma RemoveElsewhere(m: seq<Byte>, m': seq<Byte>, brk: nat, bins: seq<seq<nat>>, k: nat, i: nat, j: nat)
    requires ListsOk(m, brk, bins) && k < NUM_BINS && i < |bins[k]| && |m'| == |m|
    requires j < NUM_BINS && j != k && Fits(m, bins[k][i])
    requires forall n: nat {:trigger NodeRemoved(m, m', bins[k][i], n)} | NodeAddr(m, brk, n) ::
               NodeRemoved(m, m', bins[k][i], n)
    ensures BinOk(m', brk, bins[j], j)
  {
    assert BinOk(m, brk, bins[k], k) && BinOk(m, brk, bins[j], j);
    MemberLinks(m, brk, bins[k], k, i);
    var c := ChainOf(brk, bins[j], j);
    forall x | 0 <= x < |c| ensures SameNode(m, m', c[x]) {
      SentinelsApart(brk, j, k);
      SentinelsApart(brk, k, j);
      assert if j < k then Disjoint(bins[j], bins[k]) else Disjoint(bins[k], bins[j]);
      assert NodeRemoved(m, m', bins[k][i], c[x]);
    }
    BinFrame(m, m', brk, bins[j], j);
  }

  /** list_empty tells whether the bin's list is empty. */
  lemma EmptyIffDummy(m: seq<Byte>, brk: nat, bins: seq<seq<nat>>, k: nat)
    requires ListsOk(m, brk, bins) && k < NUM_BINS
    ensures Fits(m, First(brk, k)) && Fits(m, Next(m, First(brk, k)))
    ensures IsDummy(m, Next(m, First(brk, k))) == if bins[k] == [] then 1 else 0
    ensures bins[k] != [] ==> Next(m, First(brk, k)) == bins[k][0]
  {
    assert BinOk(m, brk, bins[k], k);
    ChainEnds(m, brk, bins[k], k);
  }

  /** The node reached from n by following next i times. */
  function Follow(m: seq<Byte>, n: nat, i: nat): nat
    decreases i
  {
    if i == 0 || !Fits(m, n) then n else Follow(m, Next(m, n), i - 1)
  }

  /** The node reached from n by following prev i times. */
  function FollowBack(m: seq<Byte>, n: nat, i: nat): nat
    decreases i
  {
    if i == 0 || !Fits(m, n) then n else FollowBack(m, Prev(m, n), i - 1)
  }

  lemma {:induction false} FollowChain(m: seq<Byte>, brk: nat, c: seq<nat>, j: nat, i: nat)
    requires Chain(m, brk, c) && j + i < |c|
    ensures Follow(m, c[j], i) == c[j + i] && FollowBack(m, c[j + i], i) == c[j]
    decreases i
  {
    if i > 0 {
      assert Link(m, c, j) && Link(m, c, j + i - 1);
      FollowChain(m, brk, c, j + 1, i - 1);
      FollowChain(m, brk, c, j, i - 1);
    }
  }

  /** Walking a bin in memory, in either direction, visits its members in order
      and then the other sentinel. */
  lemma WalkBin(m: seq<Byte>, brk: nat, bins: seq<seq<nat>>, k: nat, i: nat)
    requires ListsOk(m, brk, bins) && k < NUM_BINS && i <= |bins[k]| + 1
    ensures var c := [First(brk, k)] + bins[k] + [Last(brk, k)];
            Follow(m, First(brk, k), i) == c[i] && FollowBack(m, Last(brk, k), i) == c[|c| - 1 - i]
  {
    assert BinOk(m, brk, bins[k], k);
    var c := ChainOf(brk, bins[k], k);
    FollowChain(m, brk, c, 0, i);
    FollowChain(m, brk, c, |c| - 1 - i, i);
  }
}

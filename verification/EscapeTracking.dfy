/** The worklist that decides whether a pointer may leave its function. */
module EscapeTracking {
  import opened Sequences

  datatype Value =
    | Argument(n: nat)
    | Result(instr: nat)
    | NullPointer(addressSpace: nat)
    | Constant(n: nat)

  datatype Instr =
    | Call(args: seq<Value>, callee: Value, onlyReads: bool, noThrow: bool, isVoid: bool)
    | Load(ptr: Value)
    | VAArg(ptr: Value)
    | Store(value: Value, ptr: Value)
    | Forward(ops: seq<Value>)   // bitcast, getelementptr, phi, select
    | ICmp(lhs: Value, rhs: Value)
    | Return(value: Value)
    | Other(ops: seq<Value>)

  /** Operand number op of instruction user. */
  datatype Use = Use(user: nat, op: nat)

  /** uses gives every value's use list; noAlias holds the values that are
      results of allocation calls once pointer casts are stripped. */
  datatype Function = Function(body: seq<Instr>, uses: map<Value, seq<Use>>, noAlias: set<Value>)

  const THRESHOLD: nat := 20

  function Operands(i: Instr): seq<Value> {
    match i
    case Call(args, callee, _, _, _) => args + [callee]
    case Load(ptr) => [ptr]
    case VAArg(ptr) => [ptr]
    case Store(value, ptr) => [value, ptr]
    case Forward(ops) => ops
    case ICmp(lhs, rhs) => [lhs, rhs]
    case Return(value) => [value]
    case Other(ops) => ops
  }

  predicate IsUse(f: Function, u: Use) {
    u.user < |f.body| && u.op < |Operands(f.body[u.user])|
  }

  function Get(f: Function, u: Use): Value
    requires IsUse(f, u)
  {
    Operands(f.body[u.user])[u.op]
  }

  function UsesOf(f: Function, v: Value): seq<Use> {
    if v in f.uses then f.uses[v] else []
  }

  /** Use lists hold exactly the uses, in any order. */
  ghost predicate WellFormed(f: Function) {
    && (forall v: Value, u: Use :: u in UsesOf(f, v) <==> IsUse(f, u) && Get(f, u) == v)
    && (forall v: Value :: NoDuplicates(UsesOf(f, v)))
  }

  /** Every mention of a value counts as a use, the callee's of a call included. */
  lemma MentionIsUse(f: Function, k: nat, w: Value) returns (u: Use)
    requires WellFormed(f) && k < |f.body|
    requires match f.body[k]
             case Call(args, callee, _, _, _) => w in args || w == callee
             case Load(ptr) => w == ptr
             case VAArg(ptr) => w == ptr
             case Store(value, ptr) => w == value || w == ptr
             case Forward(ops) => w in ops
             case ICmp(lhs, rhs) => w == lhs || w == rhs
             case Return(value) => w == value
             case Other(ops) => w in ops
    ensures u in UsesOf(f, w) && u.user == k
  {
    var ops := Operands(f.body[k]);
    var j: nat;
    match f.body[k] {
      case Call(args, callee, _, _, _) =>
        if w == callee {
          j := |args|;
        } else {
          j :| j < |args| && args[j] == w;
        }
      case Store(value, _) => j := if w == value then 0 else 1;
      case ICmp(lhs, _) => j := if w == lhs then 0 else 1;
      case Forward(_) => j :| j < |ops| && ops[j] == w;
      case Other(_) => j :| j < |ops| && ops[j] == w;
      case _ => j := 0;
    }
    u := Use(k, j);
    assert IsUse(f, u) && Get(f, u) == w;
  }

  // ----------------------------------------------------------------- what it decides

  /** The use lets the pointer leave by itself. */
  predicate Captures(f: Function, u: Use, returnCaptures: bool)
    requires IsUse(f, u)
  {
    match f.body[u.user]
    case Call(args, _, onlyReads, noThrow, isVoid) => !(onlyReads && noThrow && isVoid) && Get(f, u) in args
    case Load(_) => false
    case VAArg(_) => false
    case Store(value, _) => Get(f, u) == value
    case Forward(_) => false
    case ICmp(_, rhs) => !(Get(f, u) in f.noAlias && rhs == NullPointer(0))
    case Return(_) => returnCaptures
    case Other(_) => true
  }

  /** The uses of what the use's instruction passes on. */
  function Onward(f: Function, u: Use): seq<Use> {
    if u.user < |f.body| && f.body[u.user].Forward? then UsesOf(f, Result(u.user)) else []
  }

  ghost predicate Path(f: Function, p: seq<Use>) {
    forall i: nat | i + 1 < |p| :: p[i + 1] in Onward(f, p[i])
  }

  /** u is a use of v, or of something v is passed on to. */
  ghost predicate Reaches(f: Function, v: Value, u: Use) {
    exists p: seq<Use> :: |p| > 0 && p[0] in UsesOf(f, v) && Path(f, p) && p[|p| - 1] == u
  }

  ghost predicate Escapes(f: Function, v: Value, returnCaptures: bool) {
    exists u: Use :: Reaches(f, v, u) && IsUse(f, u) && Captures(f, u, returnCaptures)
  }

  lemma ReachesDirect(f: Function, v: Value, u: Use)
    requires u in UsesOf(f, v)
    ensures Reaches(f, v, u)
  {
    var p := [u];
    assert Path(f, p);
  }

  lemma ReachesOnward(f: Function, v: Value, u: Use, w: Use)
    requires Reaches(f, v, u) && w in Onward(f, u)
    ensures Reaches(f, v, w)
  {
    var p :| |p| > 0 && p[0] in UsesOf(f, v) && Path(f, p) && p[|p| - 1] == u;
    var q := p + [w];
    forall i: nat | i + 1 < |q| ensures q[i + 1] in Onward(f, q[i]) {
      assert i + 1 < |p| ==> p[i + 1] in Onward(f, p[i]);
    }
    assert Path(f, q) && q[|q| - 1] == w && q[0] == p[0];
  }

  /** Visited, and everything behind it, when u is done. */
  ghost predicate Done(f: Function, u: Use, visited: set<Use>, returnCaptures: bool) {
    && IsUse(f, u) && !Captures(f, u, returnCaptures)
    && forall w | w in Onward(f, u) :: w in visited
  }

  /** When everything visited is done, nothing else can be reached. */
  lemma {:induction false} ClosedHoldsAll(f: Function, v: Value, visited: set<Use>, returnCaptures: bool, p: seq<Use>)
    requires |p| > 0 && p[0] in UsesOf(f, v) && Path(f, p)
    requires forall u | u in UsesOf(f, v) :: u in visited
    requires forall u | u in visited :: Done(f, u, visited, returnCaptures)
    ensures p[|p| - 1] in visited
    decreases |p|
  {
    if |p| > 1 {
      var q := p[..|p| - 1];
      assert Path(f, q) by {
        forall i: nat | i + 1 < |q| ensures q[i + 1] in Onward(f, q[i]) {
          assert p[i + 1] in Onward(f, p[i]);
        }
      }
      ClosedHoldsAll(f, v, visited, returnCaptures, q);
      assert p[|p| - 2 + 1] in Onward(f, p[|p| - 2]);
    }
  }

  lemma NothingEscapes(f: Function, v: Value, visited: set<Use>, returnCaptures: bool)
    requires forall u | u in UsesOf(f, v) :: u in visited
    requires forall u | u in visited :: Done(f, u, visited, returnCaptures)
    ensures !Escapes(f, v, returnCaptures)
  {
    forall u: Use | Reaches(f, v, u) && IsUse(f, u) ensures !Captures(f, u, returnCaptures) {
      var p :| |p| > 0 && p[0] in UsesOf(f, v) && Path(f, p) && p[|p| - 1] == u;
      ClosedHoldsAll(f, v, visited, returnCaptures, p);
    }
  }

  // --------------------------------------------------------------------- the worklist

  function AllUses(f: Function): set<Use> {
    set i, j | 0 <= i < |f.body| && 0 <= j < |Operands(f.body[i])| :: Use(i, j)
  }

  ghost predicate Pending(f: Function, v: Value, visited: set<Use>, worklist: seq<Use>, returnCaptures: bool) {
    && (forall u | u in worklist :: u in visited)
    && (forall u | u in visited :: IsUse(f, u) && Reaches(f, v, u))
    && (forall u | u in visited && u !in worklist :: Done(f, u, visited, returnCaptures))
  }

  /** The direct uses, unless there are too many of them. */
  method Seed(f: Function, v: Value) returns (tooMany: bool, visited: set<Use>, worklist: seq<Use>)
    requires WellFormed(f)
    ensures tooMany <==> |UsesOf(f, v)| > THRESHOLD
    ensures !tooMany ==>
              worklist == UsesOf(f, v) && visited == set u | u in worklist
  {
    visited, worklist := {}, [];
    var uses := UsesOf(f, v);
    var count := 0;
    while count < |uses|
      invariant count <= |uses| && count <= THRESHOLD
      invariant worklist == uses[..count] && visited == set u | u in worklist
    {
      if count >= THRESHOLD {
        return true, visited, worklist;
      }
      var u := uses[count];
      visited := visited + {u};
      worklist := worklist + [u];
      count := count + 1;
    }
    tooMany := false;
  }

  /** The uses of instruction u.user enter the worklist, each only once. */
  method Enqueue(f: Function, next: seq<Use>, visited0: set<Use>, worklist0: seq<Use>)
    returns (visited: set<Use>, worklist: seq<Use>)
    ensures visited == visited0 + set w | w in next
    ensures |worklist| >= |worklist0| && worklist[..|worklist0|] == worklist0
    ensures forall w | w in worklist :: w in worklist0 || (w in next && w !in visited0)
    ensures forall w | w in next && w !in visited0 :: w in worklist
    ensures visited == visited0 ==> worklist == worklist0
  {
    visited, worklist := visited0, worklist0;
    var k := 0;
    while k < |next|
      invariant k <= |next| && visited == visited0 + set w | w in next[..k]
      invariant |worklist| >= |worklist0| && worklist[..|worklist0|] == worklist0
      invariant forall w | w in worklist :: w in worklist0 || (w in next && w !in visited0)
      invariant forall w | w in next[..k] && w !in visited0 :: w in worklist
      invariant visited == visited0 ==> worklist == worklist0
    {
      var w := next[k];
      assert next[..k + 1] == next[..k] + [w];
      if w !in visited {
        visited := visited + {w};
        worklist := worklist + [w];
      }
      k := k + 1;
    }
    assert next[..k] == next;
  }

  // ------------------------------------------------- what leaving means, use by use

  ghost predicate Forwards(f: Function, w: Value, x: Value) {
    exists k | 0 <= k < |f.body| :: f.body[k].Forward? && w in f.body[k].ops && x == Result(k)
  }

  ghost predicate Flow(f: Function, p: seq<Value>) {
    forall i: nat | i + 1 < |p| :: Forwards(f, p[i], p[i + 1])
  }

  /** w is v, or v passed through casts, geps, phis and selects. */
  ghost predicate Flows(f: Function, v: Value, w: Value) {
    exists p: seq<Value> :: |p| > 0 && p[0] == v && p[|p| - 1] == w && Flow(f, p)
  }

  /** w itself is written to memory; being the address of a store does not count. */
  ghost predicate StoredAway(f: Function, w: Value) {
    exists k | 0 <= k < |f.body| :: f.body[k].Store? && f.body[k].value == w
  }

  /** w is an argument of a call that may write, throw, or return something. */
  ghost predicate PassedToCall(f: Function, w: Value) {
    exists k | 0 <= k < |f.body| ::
      && f.body[k].Call? && w in f.body[k].args
      && (!f.body[k].onlyReads || !f.body[k].noThrow || !f.body[k].isVoid)
  }

  ghost predicate Returned(f: Function, w: Value) {
    exists k | 0 <= k < |f.body| :: f.body[k].Return? && f.body[k].value == w
  }

  /** w is compared, unless it is fresh memory compared against null. */
  ghost predicate Compared(f: Function, w: Value) {
    exists k | 0 <= k < |f.body| ::
      && f.body[k].ICmp? && (f.body[k].lhs == w || f.body[k].rhs == w)
      && (w !in f.noAlias || f.body[k].rhs != NullPointer(0))
  }

  ghost predicate UsedOtherwise(f: Function, w: Value) {
    exists k | 0 <= k < |f.body| :: f.body[k].Other? && w in f.body[k].ops
  }

  ghost predicate Leaks(f: Function, w: Value, returnCaptures: bool) {
    || StoredAway(f, w) || PassedToCall(f, w) || (returnCaptures && Returned(f, w))
    || Compared(f, w) || UsedOtherwise(f, w)
  }

  /** The uses on a path are uses of what v flows to. */
  lemma {:induction false} PathFlows(f: Function, v: Value, p: seq<Use>)
    requires WellFormed(f) && |p| > 0 && p[0] in UsesOf(f, v) && Path(f, p)
    ensures IsUse(f, p[|p| - 1]) && Flows(f, v, Get(f, p[|p| - 1]))
    decreases |p|
  {
    hide UsesOf;
    if |p| == 1 {
      assert Flow(f, [v]);
    } else {
      var (p', u) := (p[..|p| - 1], p[|p| - 2]);
      forall i: nat | i + 1 < |p'| ensures p'[i + 1] in Onward(f, p'[i]) {
        assert p[i + 1] in Onward(f, p[i]);
      }
      PathFlows(f, v, p');
      assert p[|p| - 2 + 1] in Onward(f, u);
      FlowsOn(f, v, Get(f, u), u.user);
    }
  }

  lemma FlowsOn(f: Function, v: Value, w: Value, k: nat)
    requires Flows(f, v, w) && k < |f.body| && f.body[k].Forward? && w in f.body[k].ops
    ensures Flows(f, v, Result(k))
  {
    var q :| |q| > 0 && q[0] == v && q[|q| - 1] == w && Flow(f, q);
    var q' := q + [Result(k)];
    forall i: nat | i + 1 < |q'| ensures Forwards(f, q'[i], q'[i + 1]) {
      assert i + 1 < |q| ==> Forwards(f, q[i], q[i + 1]);
    }
    assert Flow(f, q') && q'[0] == v && q'[|q'| - 1] == Result(k);
  }

  /** And every use of what v flows to is on a path. */
  lemma {:induction false} FlowReaches(f: Function, v: Value, q: seq<Value>, u: Use)
    requires WellFormed(f) && |q| > 0 && q[0] == v && Flow(f, q) && u in UsesOf(f, q[|q| - 1])
    ensures Reaches(f, v, u)
    decreases |q|
  {
    hide UsesOf;
    if |q| == 1 {
      ReachesDirect(f, v, u);
    } else {
      var (q', w) := (q[..|q| - 1], q[|q| - 2]);
      forall i: nat | i + 1 < |q'| ensures Forwards(f, q'[i], q'[i + 1]) {
        assert Forwards(f, q[i], q[i + 1]);
      }
      assert Forwards(f, w, q[|q| - 2 + 1]);
      var k :| 0 <= k < |f.body| && f.body[k].Forward? && w in f.body[k].ops && q[|q| - 1] == Result(k);
      var j :| 0 <= j < |f.body[k].ops| && f.body[k].ops[j] == w;
      var x := Use(k, j);
      assert IsUse(f, x) && Get(f, x) == w;
      FlowReaches(f, v, q', x);
      assert Onward(f, x) == UsesOf(f, Result(k));
      ReachesOnward(f, v, x, u);
    }
  }

  lemma CaptureLeaks(f: Function, u: Use, returnCaptures: bool)
    requires IsUse(f, u) && Captures(f, u, returnCaptures)
    ensures Leaks(f, Get(f, u), returnCaptures)
  {
    var (k, w) := (u.user, Get(f, u));
    assert f.body[k].Store? ==> f.body[k].value == w;
    assert f.body[k].Other? ==> w in f.body[k].ops;
  }

  lemma LeakCaptures(f: Function, w: Value, returnCaptures: bool) returns (u: Use)
    requires Leaks(f, w, returnCaptures)
    ensures IsUse(f, u) && Get(f, u) == w && Captures(f, u, returnCaptures)
  {
    if StoredAway(f, w) {
      var k :| 0 <= k < |f.body| && f.body[k].Store? && f.body[k].value == w;
      u := Use(k, 0);
    } else if PassedToCall(f, w) {
      var k :| && 0 <= k < |f.body| && f.body[k].Call? && w in f.body[k].args
               && (!f.body[k].onlyReads || !f.body[k].noThrow || !f.body[k].isVoid);
      var j :| 0 <= j < |f.body[k].args| && f.body[k].args[j] == w;
      u := Use(k, j);
    } else if returnCaptures && Returned(f, w) {
      var k :| 0 <= k < |f.body| && f.body[k].Return? && f.body[k].value == w;
      u := Use(k, 0);
    } else if Compared(f, w) {
      var k :| && 0 <= k < |f.body| && f.body[k].ICmp? && (f.body[k].lhs == w || f.body[k].rhs == w)
               && (w !in f.noAlias || f.body[k].rhs != NullPointer(0));
      u := Use(k, if f.body[k].lhs == w then 0 else 1);
    } else {
      var k :| 0 <= k < |f.body| && f.body[k].Other? && w in f.body[k].ops;
      var j :| 0 <= j < |f.body[k].ops| && f.body[k].ops[j] == w;
      u := Use(k, j);
    }
  }

  /** A use captures exactly when its value is one that v flows to, and leaks. */
  lemma EscapesIff(f: Function, v: Value, returnCaptures: bool)
    requires WellFormed(f)
    ensures Escapes(f, v, returnCaptures) <==> exists w :: Flows(f, v, w) && Leaks(f, w, returnCaptures)
  {
    hide WellFormed, UsesOf, Captures, Leaks, Flow, Path;
    if Escapes(f, v, returnCaptures) {
      var u: Use :| Reaches(f, v, u) && IsUse(f, u) && Captures(f, u, returnCaptures);
      var p :| |p| > 0 && p[0] in UsesOf(f, v) && Path(f, p) && p[|p| - 1] == u;
      PathFlows(f, v, p);
      CaptureLeaks(f, u, returnCaptures);
    }
    if w :| Flows(f, v, w) && Leaks(f, w, returnCaptures) {
      var u := LeakCaptures(f, w, returnCaptures);
      UseListed(f, u);
      var q :| |q| > 0 && q[0] == v && q[|q| - 1] == w && Flow(f, q);
      FlowReaches(f, v, q, u);
    }
  }

  lemma UseListed(f: Function, u: Use)
    requires WellFormed(f) && IsUse(f, u)
    ensures u in UsesOf(f, Get(f, u))
  {
  }

  lemma OnwardIsUse(f: Function, u: Use, w: Use)
    requires WellFormed(f) && w in Onward(f, u)
    ensures IsUse(f, w)
  {
  }

  /** True iff v has more than 20 direct uses, or v itself or something it is
      passed on to is stored, passed to a call, returned, compared, or used in a way
      that is not known to be harmless. */
  method PointerMayLeave(f: Function, v: Value, returnCaptures: bool) returns (captured: bool)
    requires WellFormed(f)
    ensures captured <==>
              || |UsesOf(f, v)| > 20
              || exists w | Flows(f, v, w) ::
                   || StoredAway(f, w) || PassedToCall(f, w) || (returnCaptures && Returned(f, w))
                   || Compared(f, w) || UsedOtherwise(f, w)
  {
    hide WellFormed, UsesOf, Onward, Captures, Reaches, Done, Escapes, AllUses;
    var tooMany, visited, worklist := Seed(f, v);
    if tooMany {
      return true;
    }
    SeedPending(f, v, visited, worklist, returnCaptures);
    while worklist != []
      invariant Pending(f, v, visited, worklist, returnCaptures)
      invariant forall u | u in UsesOf(f, v) :: u in visited
      decreases AllUses(f) - visited, |worklist|
    {
      ghost var visited0, worklist0 := visited, worklist;
      var u := worklist[|worklist| - 1];
      worklist := worklist[..|worklist| - 1];
      if Captures(f, u, returnCaptures) {
        CaptureFound(f, v, u, returnCaptures);
        EscapesIff(f, v, returnCaptures);
        return true;
      }
      visited, worklist := Enqueue(f, Onward(f, u), visited, worklist);
      PendingStep(f, v, visited0, worklist0, visited, worklist, returnCaptures);
      UnvisitedShrinks(f, visited0, visited);
    }
    NothingEscapes(f, v, visited, returnCaptures);
    EscapesIff(f, v, returnCaptures);
    captured := false;
  }

  lemma SeedPending(f: Function, v: Value, visited: set<Use>, worklist: seq<Use>, returnCaptures: bool)
    requires WellFormed(f) && worklist == UsesOf(f, v) && visited == set u | u in worklist
    ensures Pending(f, v, visited, worklist, returnCaptures)
  {
    forall u | u in visited ensures IsUse(f, u) && Reaches(f, v, u) {
      ReachesDirect(f, v, u);
    }
  }

  lemma CaptureFound(f: Function, v: Value, u: Use, returnCaptures: bool)
    requires Reaches(f, v, u) && IsUse(f, u) && Captures(f, u, returnCaptures)
    ensures Escapes(f, v, returnCaptures)
  {
  }

  lemma UnvisitedShrinks(f: Function, visited0: set<Use>, visited: set<Use>)
    requires visited0 <= visited && forall u | u in visited :: IsUse(f, u)
    ensures AllUses(f) - visited <= AllUses(f) - visited0
    ensures visited != visited0 ==> AllUses(f) - visited != AllUses(f) - visited0
  {
    if visited != visited0 {
      var x :| x in visited && x !in visited0;
      assert x in AllUses(f) - visited0;
    }
  }

  /** One round of the loop: the last use of the worklist is done. */
  lemma PendingStep(f: Function, v: Value, visited0: set<Use>, worklist0: seq<Use>,
                    visited: set<Use>, worklist: seq<Use>, returnCaptures: bool)
    requires WellFormed(f) && worklist0 != [] && Pending(f, v, visited0, worklist0, returnCaptures)
    requires var u := worklist0[|worklist0| - 1];
             var rest := worklist0[..|worklist0| - 1];
             && !Captures(f, u, returnCaptures)
             && visited == visited0 + (set w | w in Onward(f, u))
             && |worklist| >= |rest| && worklist[..|rest|] == rest
             && (forall w | w in worklist :: w in rest || (w in Onward(f, u) && w !in visited0))
             && (forall w | w in Onward(f, u) && w !in visited0 :: w in worklist)
    ensures Pending(f, v, visited, worklist, returnCaptures)
  {
    var u, rest := worklist0[|worklist0| - 1], worklist0[..|worklist0| - 1];
    assert forall x | x in worklist0 :: x in rest || x == u;
    assert forall x | x in rest :: x in worklist0 && x in worklist;
    forall x | x in visited ensures IsUse(f, x) && Reaches(f, v, x) {
      if x !in visited0 {
        OnwardIsUse(f, u, x);
        ReachesOnward(f, v, u, x);
      }
    }
  }

  // ---------------------------------------------------------------- order of use lists

  /** The answer is a property of the instructions: it does not depend on the
      order of the use lists, and so not on the order of the worklist. */
  lemma OrderIrrelevant(f: Function, g: Function, v: Value, returnCaptures: bool)
    requires WellFormed(f) && WellFormed(g) && f.body == g.body && f.noAlias == g.noAlias
    ensures |UsesOf(f, v)| == |UsesOf(g, v)|
    ensures Escapes(f, v, returnCaptures) <==> Escapes(g, v, returnCaptures)
  {
    forall w: Value, u: Use ensures u in UsesOf(f, w) <==> u in UsesOf(g, w) {
      assert IsUse(f, u) <==> IsUse(g, u);
      assert IsUse(f, u) ==> Get(f, u) == Get(g, u);
    }
    LengthAtMost(UsesOf(f, v), UsesOf(g, v));
    LengthAtMost(UsesOf(g, v), UsesOf(f, v));
    forall u: Use ensures Reaches(f, v, u) <==> Reaches(g, v, u) {
      SameReach(f, g, v, u);
      SameReach(g, f, v, u);
    }
  }

  lemma SameReach(f: Function, g: Function, v: Value, u: Use)
    requires f.body == g.body
    requires forall w: Value, x: Use :: x in UsesOf(f, w) <==> x in UsesOf(g, w)
    ensures Reaches(f, v, u) ==> Reaches(g, v, u)
  {
    if Reaches(f, v, u) {
      var p :| |p| > 0 && p[0] in UsesOf(f, v) && Path(f, p) && p[|p| - 1] == u;
      forall i: nat | i + 1 < |p| ensures p[i + 1] in Onward(g, p[i]) {
        assert p[i + 1] in Onward(f, p[i]);
      }
      assert Path(g, p);
    }
  }
}

/**
 Which Branches a suppressed Branch takes with it, as sets: the Branches on the
 walks that start from it along the links.
*/
module ActivitySpec {
  import opened Branches
  import opened LinkSpec
  import opened LinkStack

  /** APPLIED Branches directly after one another, from `c` on. */
  function AppliedWalk(b: seq<Brch>, c: int): set<int>
    requires Directed(b, |b|) && c < |b|
    decreases if c > 0 then |b| - c else 0
  {
    if c > 0 && b[c].Class() == Applied then {c} + AppliedWalk(b, b[c].ichld) else {}
  }

  /** Children from `c` on, up to the first BOOLEAN and the APPLIED Branches directly after that. */
  function ChildWalk(b: seq<Brch>, c: int): set<int>
    requires Directed(b, |b|) && c < |b|
    decreases if c > 0 then |b| - c else 0
  {
    if c <= 0 then {}
    else if b[c].Class() == Boolean then {c} + AppliedWalk(b, b[c].ichld)
    else {c} + ChildWalk(b, b[c].ichld)
  }

  /** Left parents from `c` on, up to the first Branch of type `stop`. */
  function LeftWalk(b: seq<Brch>, c: int, stop: Type): set<int>
    requires Directed(b, |b|) && c < |b|
    decreases c
  {
    if c <= 0 then {}
    else if b[c].typ == stop then {c}
    else {c} + LeftWalk(b, b[c].ileft, stop)
  }

  /** Everything the suppressed Branch `p` inactivates. */
  function Reach(b: seq<Brch>, p: nat): set<int>
    requires Directed(b, |b|) && 0 < p < |b|
  {
    (if b[p].Class() == Grown then LeftWalk(b, b[p].ileft, if b[p].typ.Loft? then Mark else SkBeg) else {})
    + (if b[p].Class() in {Primitive, Grown} then ChildWalk(b, b[p].ichld) else {})
  }

  /** Everything inactivated by suppressed Branches before `n`. */
  function Reached(b: seq<Brch>, n: nat): set<int>
    requires Directed(b, |b|) && 0 < n <= |b|
  {
    if n == 1 then {}
    else Reached(b, n - 1) + if b[n - 1].actv == Suppressed then Reach(b, n - 1) else {}
  }

  /** Inactivated means: on a walk from some suppressed Branch. */
  lemma {:induction false} ReachedIff(b: seq<Brch>, n: nat, k: int)
    requires Directed(b, |b|) && 0 < n <= |b|
    ensures k in Reached(b, n) <==> exists p :: 0 < p < n && b[p].actv == Suppressed && k in Reach(b, p)
  {
    if n > 1 { ReachedIff(b, n - 1, k); }
  }

  /** Macro beginnings less macro ends before Branch `k`. */
  function MacroDepth(b: seq<Brch>, k: nat): int
    requires k <= |b|
  {
    if k <= 1 then 0
    else MacroDepth(b, k - 1) + if b[k - 1].typ.MacBeg? then 1 else if b[k - 1].typ.MacEnd? then -1 else 0
  }

  /** What becomes of Branch `k` of a linked model. */
  function Outcome(b: seq<Brch>, k: nat): Activity
    requires Directed(b, |b|) && 0 < k < |b|
  {
    if b[k].actv == Suppressed then Suppressed
    else if k in Reached(b, |b|) then Inactive
    else if MacroDepth(b, k) > 0 then Deferred
    else Active
  }

  function Settle(b: seq<Brch>): seq<Brch>
    requires Directed(b, |b|)
  {
    seq(|b|, k requires 0 <= k < |b| => if k > 0 then b[k].(actv := Outcome(b, k)) else b[k])
  }

  lemma {:induction false} EntryZero(b: seq<Brch>, n: nat)
    requires n < |b|
    ensures var r := LinkAll(b, n); r.Good? ==> r.b[0] == b[0]
  {
    hide LinkOne;
    if n > 0 {
      EntryZero(b, n - 1);
      var s := LinkAll(b, n - 1);
      if s.Good? { EntryZeroOne(s.b, s.stack, n); }
    }
  }

  lemma EntryZeroOne(b: seq<Brch>, stack: seq<nat>, i: nat)
    requires 0 < i < |b| && UpTo(stack, i)
    ensures var r := LinkOne(b, stack, i); r.Good? ==> r.b[0] == b[0]
  {
    hide Cut, Below, Without, Nearest, MatchBeg;
  }

  /** No Branch is refused. */
  predicate Passes(b: seq<Brch>) { |b| > 0 && LinkAll(b, |b| - 1).Good? }

  lemma LinksAreDirected(b: seq<Brch>)
    requires Passes(b)
    ensures var r := LinkAll(b, |b| - 1).b; Directed(r, |r|) && SameBranches(b, r) && r[0] == b[0]
  {
    hide LinkAll, Tracks, Directed;
    LinkAllAdvances(b, |b| - 1);
    EntryZero(b, |b| - 1);
  }

  /** The links of a model that passes. */
  function LinksOf(b: seq<Brch>): (r: seq<Brch>)
    requires Passes(b)
    ensures Directed(r, |r|) && SameBranches(b, r) && r[0] == b[0]
  {
    LinksAreDirected(b);
    LinkAll(b, |b| - 1).b
  }

  /** The whole of a successful check. */
  function Checked(b: seq<Brch>): seq<Brch>
    requires Passes(b)
  {
    Settle(LinksOf(b))
  }

  // ----- walks depend on links and types only -----

  predicate SameLinks(a: seq<Brch>, b: seq<Brch>) {
    && |a| == |b|
    && forall j :: 0 <= j < |a| ==> a[j].typ == b[j].typ && a[j].ileft == b[j].ileft && a[j].irite == b[j].irite && a[j].ichld == b[j].ichld
  }

  lemma {:induction false} SameAppliedWalk(a: seq<Brch>, b: seq<Brch>, c: int)
    requires SameLinks(a, b) && Directed(a, |a|) && Directed(b, |b|) && c < |a|
    ensures AppliedWalk(a, c) == AppliedWalk(b, c)
    decreases if c > 0 then |a| - c else 0
  {
    if c > 0 && b[c].Class() == Applied { SameAppliedWalk(a, b, b[c].ichld); }
  }

  lemma {:induction false} SameChildWalk(a: seq<Brch>, b: seq<Brch>, c: int)
    requires SameLinks(a, b) && Directed(a, |a|) && Directed(b, |b|) && c < |a|
    ensures ChildWalk(a, c) == ChildWalk(b, c)
    decreases if c > 0 then |a| - c else 0
  {
    if c > 0 {
      SameChildWalk(a, b, b[c].ichld);
      SameAppliedWalk(a, b, b[c].ichld);
    }
  }

  lemma {:induction false} SameLeftWalk(a: seq<Brch>, b: seq<Brch>, c: int, stop: Type)
    requires SameLinks(a, b) && Directed(a, |a|) && Directed(b, |b|) && c < |a|
    ensures LeftWalk(a, c, stop) == LeftWalk(b, c, stop)
    decreases c
  {
    if c > 0 { SameLeftWalk(a, b, b[c].ileft, stop); }
  }

  lemma SameReach(a: seq<Brch>, b: seq<Brch>, p: nat)
    requires SameLinks(a, b) && Directed(a, |a|) && Directed(b, |b|) && 0 < p < |a|
    ensures Reach(a, p) == Reach(b, p)
  {
    SameLeftWalk(a, b, b[p].ileft, if b[p].typ.Loft? then Mark else SkBeg);
    SameChildWalk(a, b, b[p].ichld);
  }

  // ----- linking depends on types only -----

  ghost predicate Agree(r: Links, s: Links) {
    match (r, s)
    case (Good(a, x), Good(b, y)) => SameLinks(a, b) && x == y
    case (Bad(x), Bad(y)) => x == y
    case _ => false
  }

  lemma {:induction false} SameNearest(a: seq<Brch>, b: seq<Brch>, j: nat, ts: set<Type>)
    requires SameLinks(a, b) && j < |a|
    ensures Nearest(a, j, ts) == Nearest(b, j, ts)
  {
    if j > 0 { SameNearest(a, b, j - 1, ts); }
  }

  lemma {:induction false} SameMatchBeg(a: seq<Brch>, b: seq<Brch>, j: nat, n: int)
    requires SameLinks(a, b) && j < |a|
    ensures MatchBeg(a, j, n) == MatchBeg(b, j, n)
  {
    if j > 0 {
      SameMatchBeg(a, b, j - 1, if b[j].typ.MacEnd? then n + 1 else if b[j].typ.MacBeg? then n - 1 else n);
    }
  }

  lemma SameTake(a: seq<Brch>, b: seq<Brch>, stack: seq<nat>, i: nat)
    requires SameLinks(a, b) && 0 < i < |a| && UpTo(stack, i)
    ensures Agree(PushNew(a, stack, i), PushNew(b, stack, i))
    ensures stack != [] ==> Agree(TakeOne(a, stack, i), TakeOne(b, stack, i))
    ensures |stack| >= 2 ==> Agree(TakeTwo(a, stack, i), TakeTwo(b, stack, i))
  {
  }

  lemma SameSetChildren(a: seq<Brch>, b: seq<Brch>, js: seq<nat>, i: nat, l: int, r: int, c: int)
    requires SameLinks(a, b) && 0 < i < |a|
    ensures SameLinks(SetChildren(a, js, i)[i := a[i].(ileft := l, irite := r, ichld := c)],
                      SetChildren(b, js, i)[i := b[i].(ileft := l, irite := r, ichld := c)])
  {
  }

  lemma SameLoft(a: seq<Brch>, b: seq<Brch>, stack: seq<nat>, i: nat)
    requires SameLinks(a, b) && 0 < i < |a| && UpTo(stack, i)
    ensures Agree(LinkLoft(a, stack, i), LinkLoft(b, stack, i))
  {
    hide Nearest, Cut, SetChildren;
    SameNearest(a, b, i - 1, {Mark});
    var skins := Above(stack, Nearest(a, i - 1, {Mark}));
    if skins != [] { SameSetChildren(a, b, skins, i, skins[0], a[i].irite, 0); }
  }

  lemma SameSketch(a: seq<Brch>, b: seq<Brch>, stack: seq<nat>, i: nat)
    requires SameLinks(a, b) && 0 < i < |a| && UpTo(stack, i)
    ensures Agree(LinkSketch(a, stack, i), LinkSketch(b, stack, i))
  {
    hide Nearest, Without;
    SameNearest(a, b, i - 1, {SkEnd, SolEnd, SkBeg});
  }

  lemma SameSolver(a: seq<Brch>, b: seq<Brch>, stack: seq<nat>, i: nat)
    requires SameLinks(a, b) && 0 < i < |a| && UpTo(stack, i)
    ensures Agree(LinkSolver(a, stack, i), LinkSolver(b, stack, i))
  {
    hide Nearest, Without;
    SameNearest(a, b, i - 1, {SolEnd, SkEnd, SolBeg});
  }

  lemma SameMacEnd(a: seq<Brch>, b: seq<Brch>, stack: seq<nat>, i: nat)
    requires SameLinks(a, b) && 0 < i < |a| && UpTo(stack, i)
    ensures Agree(LinkMacEnd(a, stack, i), LinkMacEnd(b, stack, i))
  {
    hide MatchBeg, Cut, SetChildren, SameLinks;
    SameMatchBeg(a, b, i - 1, 1);
    var m := MatchBeg(a, i - 1, 1);
    if m > 0 {
      SameSetChildren(a, b, Above(stack, m - 1), i, m, i, -1);
    } else {
      SameSetChildren(a, b, Above(stack, 0), i, 0, 0, 0);
    }
  }

  lemma SameLinkOne(a: seq<Brch>, b: seq<Brch>, stack: seq<nat>, i: nat)
    requires SameLinks(a, b) && 0 < i < |a| && UpTo(stack, i)
    ensures Agree(LinkOne(a, stack, i), LinkOne(b, stack, i))
  {
    hide LinkLoft, LinkSketch, LinkSolver, LinkMacEnd, PushNew, TakeOne, TakeTwo;
    match b[i].Class()
    case Sketch => SameTake(a, b, stack, i); SameSketch(a, b, stack, i);
    case Solver => SameTake(a, b, stack, i); SameSolver(a, b, stack, i);
    case Utility => SameTake(a, b, stack, i); SameMacEnd(a, b, stack, i);
    case Grown => SameTake(a, b, stack, i); SameLoft(a, b, stack, i);
    case _ => SameTake(a, b, stack, i);
  }

  /** The same Branches, whatever their links and activities; the unused entry 0 is the same. */
  predicate SameTypes(a: seq<Brch>, b: seq<Brch>) {
    |a| == |b| && (forall j :: 0 <= j < |a| ==> a[j].typ == b[j].typ) && (|a| > 0 ==> a[0] == b[0])
  }

  lemma {:induction false} SameLinkAll(a: seq<Brch>, b: seq<Brch>, n: nat)
    requires SameTypes(a, b) && n < |a|
    ensures Agree(LinkAll(a, n), LinkAll(b, n))
  {
    hide LinkOne;
    if n > 0 {
      SameLinkAll(a, b, n - 1);
      var r, s := LinkAll(a, n - 1), LinkAll(b, n - 1);
      if r.Good? && s.Good? { SameLinkOne(r.b, s.b, r.stack, n); }
    }
  }

  // ----- consequences -----

  lemma SettleKeeps(b: seq<Brch>)
    requires Directed(b, |b|)
    ensures SameLinks(b, Settle(b)) && Directed(Settle(b), |b|)
    ensures forall k :: 0 <= k < |b| ==> (b[k].actv == Suppressed <==> Settle(b)[k].actv == Suppressed)
  {
  }

  /** With the same types and the same suppressed Branches, the same is reached. */
  lemma {:induction false} SameReached(a: seq<Brch>, b: seq<Brch>, n: nat)
    requires SameLinks(a, b) && Directed(a, |a|) && Directed(b, |b|) && 0 < n <= |a|
    requires forall j :: 0 < j < |a| ==> (a[j].actv == Suppressed <==> b[j].actv == Suppressed)
    ensures Reached(a, n) == Reached(b, n)
  {
    if n > 1 {
      SameReached(a, b, n - 1);
      SameReach(a, b, n - 1);
    }
  }

  lemma {:induction false} SameMacroDepth(a: seq<Brch>, b: seq<Brch>, k: nat)
    requires SameLinks(a, b) && k <= |a|
    ensures MacroDepth(a, k) == MacroDepth(b, k)
  {
    if k > 1 { SameMacroDepth(a, b, k - 1); }
  }

  /** What becomes of a Branch depends on nothing but links, types and suppression. */
  lemma SameOutcome(a: seq<Brch>, b: seq<Brch>, k: nat)
    requires SameLinks(a, b) && Directed(a, |a|) && Directed(b, |b|) && 0 < k < |a|
    requires forall j :: 0 < j < |a| ==> (a[j].actv == Suppressed <==> b[j].actv == Suppressed)
    ensures Outcome(a, k) == Outcome(b, k)
  {
    SameReached(a, b, |a|);
    SameMacroDepth(a, b, k);
  }

  /** Settled activities settle to themselves. */
  lemma SettleAgain(r: seq<Brch>, s: seq<Brch>)
    requires Directed(r, |r|) && Directed(s, |s|) && SameLinks(r, s) && SameBranches(Settle(r), s)
    requires |r| > 0
    ensures Settle(s) == Settle(r)
  {
    SettleKeeps(r);
    forall k | 0 <= k < |r| ensures Settle(s)[k] == Settle(r)[k] {
      if k > 0 { SameOutcome(r, s, k); }
    }
  }

  lemma SamePasses(a: seq<Brch>, b: seq<Brch>)
    requires SameTypes(a, b) && Passes(a)
    ensures Passes(b) && SameLinks(LinksOf(a), LinksOf(b))
  {
    hide LinkOne;
    var n := |a| - 1;
    SameLinkAll(a, b, n);
    var r, s := LinkAll(a, n), LinkAll(b, n);
    assert Agree(r, s) && r.Good?;
  }

  /** Checking twice is the same as checking once. */
  lemma CheckIsIdempotent(b: seq<Brch>)
    requires Passes(b)
    ensures Passes(Checked(b)) && Checked(Checked(b)) == Checked(b)
  {
    var r := LinksOf(b);
    var c := Settle(r);
    SettleKeeps(r);
    SamePasses(b, c);
    var s := LinksOf(c);
    SettleAgain(r, s);
  }

  lemma MonotoneOutcome(r: seq<Brch>, s: seq<Brch>, k: nat)
    requires SameLinks(r, s) && Directed(r, |r|) && Directed(s, |s|) && 0 < k < |r|
    requires forall j :: 0 < j < |r| && r[j].actv == Suppressed ==> s[j].actv == Suppressed
    ensures Outcome(r, k) in {Inactive, Suppressed} ==> Outcome(s, k) in {Inactive, Suppressed}
  {
    if k in Reached(r, |r|) { MoreIsReached(r, s, |r|, k); }
  }

  /** Suppressing more never brings a Branch back. */
  lemma SuppressingMoreIsMonotone(a: seq<Brch>, b: seq<Brch>, k: nat)
    requires SameTypes(a, b) && Passes(a) && Passes(b) && 0 < k < |a|
    requires forall j :: 0 < j < |a| && a[j].actv == Suppressed ==> b[j].actv == Suppressed
    ensures Checked(a)[k].actv in {Inactive, Suppressed} ==> Checked(b)[k].actv in {Inactive, Suppressed}
  {
    SamePasses(a, b);
    MonotoneOutcome(LinksOf(a), LinksOf(b), k);
  }

  lemma {:induction false} MoreIsReached(a: seq<Brch>, b: seq<Brch>, n: nat, k: int)
    requires SameLinks(a, b) && Directed(a, |a|) && Directed(b, |b|) && 0 < n <= |a|
    requires forall j :: 0 < j < |a| && a[j].actv == Suppressed ==> b[j].actv == Suppressed
    requires k in Reached(a, n)
    ensures k in Reached(b, n)
  {
    ReachedIff(a, n, k);
    ReachedIff(b, n, k);
    var p :| 0 < p < n && a[p].actv == Suppressed && k in Reach(a, p);
    SameReach(a, b, p);
  }

  /** With nothing suppressed nothing is inactivated. */
  lemma {:induction false} NothingReached(b: seq<Brch>, n: nat)
    requires Directed(b, |b|) && 0 < n <= |b| && forall j :: 0 < j < |b| ==> b[j].actv != Suppressed
    ensures Reached(b, n) == {}
  {
    if n > 1 { NothingReached(b, n - 1); }
  }
}

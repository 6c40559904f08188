/**
 Every linking step keeps the explicit stack equal to the Branches a backward
 scan would find unclaimed, and keeps the links pointing the right way.
*/
module LinkStack {
  import opened Branches
  import opened LinkSpec

  // ----- the unclaimed Branches are a stack -----

  predicate Sorted(s: seq<nat>) {
    forall p, q :: 0 <= p < q < |s| ==> s[p] < s[q]
  }

  predicate IsOpen(b: seq<Brch>, j: int)
    requires 0 <= j < |b|
  {
    b[j].ichld == 0
  }

  /** `stack` lists the Branches before `i` whose child is 0; from `i` on nothing is linked. */
  ghost predicate Tracks(b: seq<Brch>, stack: seq<nat>, i: int) {
    && 0 < i <= |b|
    && UpTo(stack, i) && Sorted(stack)
    && (forall j :: 0 < j < i ==> (IsOpen(b, j) <==> j in stack))
    && (forall j :: i <= j < |b| ==> b[j].ichld == -1)
    && (forall k :: 0 < k < |stack| ==> !b[stack[k]].typ.MacEnd?)
  }

  /** Positive child links point forward, positive left links backward. */
  ghost predicate Directed(b: seq<Brch>, n: int) {
    && (forall j :: 0 < j < |b| && b[j].ichld > 0 ==> j < b[j].ichld < n)
    && (forall j :: 0 < j < |b| ==> b[j].ileft < j)
  }

  predicate SameBranches(a: seq<Brch>, b: seq<Brch>) {
    |a| == |b| && forall j :: 0 <= j < |a| ==> a[j].typ == b[j].typ && a[j].actv == b[j].actv
  }

  lemma CutMembers(stack: seq<nat>, j: int)
    requires Sorted(stack)
    ensures forall p :: 0 <= p < Cut(stack, j) ==> stack[p] <= j
    ensures forall x :: x in Above(stack, j) <==> x in stack && x > j
    ensures forall x :: x in Below(stack, j) <==> x in stack && x <= j
  {
    hide Cut;
    var k := Cut(stack, j);
    forall p | 0 <= p < k ensures stack[p] <= j { assert stack[p] <= stack[k - 1]; }
    assert stack == stack[..k] + stack[k..];
    forall x | x in stack[..k] ensures x <= j { }
    forall x | x in stack[k..] ensures x > j { }
  }

  /** What is on the stack at `j` is the first thing above `j - 1`. */
  lemma AboveStep(stack: seq<nat>, j: int)
    requires Sorted(stack)
    ensures Above(stack, j - 1) == if j in stack then [j] + Above(stack, j) else Above(stack, j)
  {
    hide Cut;
    CutMembers(stack, j);
    CutMembers(stack, j - 1);
    var k, m := Cut(stack, j - 1), Cut(stack, j);
    if j in stack {
      assert stack[k] == j;
      assert m == k + 1;
    }
  }

  lemma WithoutMembers(stack: seq<nat>, j: nat)
    requires Sorted(stack)
    ensures Sorted(Without(stack, j))
    ensures forall x :: x in Without(stack, j) <==> x in stack && x != j
  {
    hide Cut, Below, Above;
    var k := Cut(stack, j);
    CutMembers(stack, j);
    if k > 0 && stack[k - 1] == j {
      assert stack == stack[..k - 1] + [j] + stack[k..];
    }
  }

  lemma PopMembers(stack: seq<nat>)
    requires Sorted(stack) && stack != []
    ensures Sorted(Pop(stack)) && forall k :: k in Pop(stack) <==> k in stack && k != Top(stack)
  {
    assert stack == Pop(stack) + [Top(stack)];
  }

  /** Everything known before Branch `i` is linked. */
  ghost predicate Linked(b: seq<Brch>, stack: seq<nat>, i: int) {
    Tracks(b, stack, i) && Directed(b, i)
  }

  /** Linking one more Branch went well, or was refused. */
  ghost predicate Advances(b: seq<Brch>, r: Links, i: int) {
    r.Good? ==> Linked(r.b, r.stack, i + 1) && SameBranches(b, r.b)
  }

  lemma PushNewAdvances(b: seq<Brch>, stack: seq<nat>, i: nat)
    requires i < |b| && Linked(b, stack, i) && !b[i].typ.MacEnd?
    ensures Advances(b, PushNew(b, stack, i), i)
  {
  }

  lemma RecallAdvances(b: seq<Brch>, stack: seq<nat>, i: nat)
    requires i < |b| && Linked(b, stack, i) && b[i].typ.Recall?
    ensures Advances(b, Good(b[i := b[i].(ileft := 0, irite := 0, ichld := 0)], stack + [i]), i)
  {
  }

  lemma TakeOneAdvances(b: seq<Brch>, stack: seq<nat>, i: nat)
    requires i < |b| && stack != [] && Linked(b, stack, i) && !b[i].typ.MacEnd?
    ensures Advances(b, TakeOne(b, stack, i), i)
  {
    PopMembers(stack);
  }

  lemma TakeTwoAdvances(b: seq<Brch>, stack: seq<nat>, i: nat)
    requires i < |b| && |stack| >= 2 && Linked(b, stack, i) && !b[i].typ.MacEnd?
    ensures Advances(b, TakeTwo(b, stack, i), i)
  {
    PopMembers(stack);
    PopMembers(Pop(stack));
  }

  lemma LoftTracks(b: seq<Brch>, stack: seq<nat>, i: nat)
    requires i < |b| && Tracks(b, stack, i) && b[i].typ.Loft?
    ensures var r := LinkLoft(b, stack, i); r.Good? ==> Tracks(r.b, r.stack, i + 1)
  {
    CutMembers(stack, Nearest(b, i - 1, {Mark}));
  }

  lemma LoftAdvances(b: seq<Brch>, stack: seq<nat>, i: nat)
    requires i < |b| && Linked(b, stack, i) && b[i].typ.Loft?
    ensures Advances(b, LinkLoft(b, stack, i), i)
  {
    LoftTracks(b, stack, i);
    var skins := Above(stack, Nearest(b, i - 1, {Mark}));
    ChildrenDirected(b, skins, i);
    if skins != [] {
      EntryDirected(b, SetChildren(b, skins, i), i, b[i].(ileft := skins[0], ichld := 0));
    }
  }

  lemma ChildrenDirected(b: seq<Brch>, js: seq<nat>, i: nat)
    requires 0 < i < |b| && Directed(b, i) && UpTo(js, i)
    ensures Directed(SetChildren(b, js, i), i + 1) && SameBranches(b, SetChildren(b, js, i))
  {
  }

  lemma EntryDirected(b0: seq<Brch>, b: seq<Brch>, i: nat, x: Brch)
    requires 0 < i < |b| && Directed(b, i + 1) && SameBranches(b0, b)
    requires x.typ == b0[i].typ && x.actv == b0[i].actv && x.ichld <= 0 && x.ileft < i
    ensures Directed(b[i := x], i + 1) && SameBranches(b0, b[i := x])
  {
  }

  lemma MacEndTracks(b: seq<Brch>, stack: seq<nat>, i: nat)
    requires i < |b| && Tracks(b, stack, i)
    ensures var r := LinkMacEnd(b, stack, i); r.Good? ==> Tracks(r.b, r.stack, i + 1)
  {
    hide MatchBeg;
    var m: int := MatchBeg(b, i - 1, 1);
    CutMembers(stack, if m > 0 then m - 1 else 0);
  }

  lemma MacEndDirected(b: seq<Brch>, stack: seq<nat>, i: nat)
    requires 0 < i < |b| && UpTo(stack, i) && Directed(b, i)
    ensures var r := LinkMacEnd(b, stack, i); Directed(r.b, i + 1) && SameBranches(b, r.b)
  {
    hide MatchBeg, Cut, Directed, SameBranches, SetChildren;
    var m: int := MatchBeg(b, i - 1, 1);
    var js := Above(stack, if m > 0 then m - 1 else 0);
    ChildrenDirected(b, js, i);
    if m > 0 {
      EntryDirected(b, SetChildren(b, js, i), i, b[i].(ileft := m, irite := i, ichld := -1));
    } else {
      EntryDirected(b, SetChildren(b, js, i), i, b[i].(ileft := 0, irite := 0, ichld := 0));
    }
  }

  lemma MacEndAdvances(b: seq<Brch>, stack: seq<nat>, i: nat)
    requires i < |b| && Linked(b, stack, i)
    ensures Advances(b, LinkMacEnd(b, stack, i), i)
  {
    MacEndTracks(b, stack, i);
    MacEndDirected(b, stack, i);
  }

  /** Entry `k` of what is left was entry `k` or the one after it. */
  lemma WithoutEntry(stack: seq<nat>, j: nat, k: nat)
    requires k < |Without(stack, j)|
    ensures k < |stack| && (Without(stack, j)[k] == stack[k] || (k + 1 < |stack| && Without(stack, j)[k] == stack[k + 1]))
  {
    hide Cut;
  }

  lemma StillUnclaimed(stack: seq<nat>, j: nat, b: seq<Brch>, i: int)
    requires UpTo(stack, i) && i <= |b| && forall k :: 0 < k < |stack| ==> !b[stack[k]].typ.MacEnd?
    ensures var s := Without(stack, j); UpTo(s, i) && forall k :: 0 < k < |s| ==> !b[s[k]].typ.MacEnd?
  {
    hide Without;
    var s := Without(stack, j);
    forall k | 0 <= k < |s| ensures 0 < s[k] < i && (k > 0 ==> !b[s[k]].typ.MacEnd?) {
      WithoutEntry(stack, j, k);
    }
  }

  /** Branch `j` is claimed by Branch `i`, whose child is then 0. */
  lemma DetachTracks(b: seq<Brch>, stack: seq<nat>, i: nat, j: nat)
    requires 0 < j < i < |b| && Tracks(b, stack, i) && !b[i].typ.MacEnd?
    ensures Tracks(SetChild(b, j, i)[i := b[i].(ileft := j, ichld := 0)], Without(stack, j) + [i], i + 1)
  {
    hide Without;
    WithoutMembers(stack, j);
    StillUnclaimed(stack, j, b, i);
    PushTracks(b, stack, Without(stack, j), i, j, SetChild(b, j, i)[i := b[i].(ileft := j, ichld := 0)]);
  }

  lemma PushTracks(b: seq<Brch>, stack: seq<nat>, s: seq<nat>, i: nat, j: nat, b': seq<Brch>)
    requires 0 < j < i < |b| == |b'| && Tracks(b, stack, i) && Sorted(s) && UpTo(s, i) && !b'[i].typ.MacEnd?
    requires forall x :: x in s <==> x in stack && x != j
    requires forall k :: 0 < k < |s| ==> !b[s[k]].typ.MacEnd?
    requires b'[i].ichld == 0 && b'[j].ichld == i && b'[j].typ == b[j].typ
    requires forall k :: 0 <= k < |b| && k != i && k != j ==> b'[k] == b[k]
    ensures Tracks(b', s + [i], i + 1)
  {
    forall k | 0 < k < i + 1 ensures IsOpen(b', k) <==> k in s + [i] {
      if k != i && k != j { assert IsOpen(b, k) <==> k in stack; }
    }
  }

  lemma DetachAdvances(b: seq<Brch>, stack: seq<nat>, i: nat, j: nat)
    requires 0 < j < i < |b| && Linked(b, stack, i) && !b[i].typ.MacEnd?
    ensures Advances(b, Good(SetChild(b, j, i)[i := b[i].(ileft := j, ichld := 0)], Without(stack, j) + [i]), i)
  {
    hide Tracks, Without;
    DetachTracks(b, stack, i, j);
    AtLinked(b, stack, i);
  }

  lemma AtLinked(b: seq<Brch>, stack: seq<nat>, i: int)
    requires Linked(b, stack, i)
    ensures 0 < i <= |b| && UpTo(stack, i) && forall j :: i <= j < |b| ==> b[j].ichld == -1
  {
  }

  lemma BodyAdvances(b: seq<Brch>, stack: seq<nat>, i: nat)
    requires i < |b| && Linked(b, stack, i) && b[i].Class() in {Grown, Applied, Boolean, Transform}
    ensures Advances(b, LinkOne(b, stack, i), i)
  {
    if b[i].typ.Loft? {
      LoftAdvances(b, stack, i);
    } else if b[i].Class() == Boolean {
      if |stack| >= 2 { TakeTwoAdvances(b, stack, i); }
    } else if stack != [] {
      TakeOneAdvances(b, stack, i);
    }
  }

  lemma RefusedAdvances(b: seq<Brch>, i: int)
    ensures forall x {:trigger Bad(x)} :: Advances(b, Bad(x), i)
  {
  }

  lemma SketchAdvances(b: seq<Brch>, stack: seq<nat>, i: nat)
    requires i < |b| && Linked(b, stack, i) && b[i].Class() == Sketch && !b[i].typ.SkBeg?
    ensures Advances(b, LinkSketch(b, stack, i), i)
  {
    hide Linked, Advances, Nearest, Without, SetChild;
    AtLinked(b, stack, i);
    RefusedAdvances(b, i);
    if i > 1 { DetachAdvances(b, stack, i, i - 1); }
  }

  lemma SolverAdvances(b: seq<Brch>, stack: seq<nat>, i: nat)
    requires i < |b| && Linked(b, stack, i) && b[i].Class() == Solver && !b[i].typ.SolBeg?
    ensures Advances(b, LinkSolver(b, stack, i), i)
  {
    hide Linked, Advances, Nearest, Without, SetChild;
    AtLinked(b, stack, i);
    RefusedAdvances(b, i);
    var j := Nearest(b, i - 1, {SolEnd, SkEnd, SolBeg});
    if j > 0 { DetachAdvances(b, stack, i, j); }
  }

  /** Whatever the Branch, the unclaimed ones are still exactly the stack. */
  lemma LinkOneAdvances(b: seq<Brch>, stack: seq<nat>, i: nat)
    requires i < |b| && Linked(b, stack, i)
    ensures Advances(b, LinkOne(b, stack, i), i)
  {
    match b[i].Class()
    case Primitive => PushNewAdvances(b, stack, i);
    case Grown | Applied | Boolean | Transform => BodyAdvances(b, stack, i);
    case Sketch => if b[i].typ.SkBeg? { PushNewAdvances(b, stack, i); } else { SketchAdvances(b, stack, i); }
    case Solver => if b[i].typ.SolBeg? { PushNewAdvances(b, stack, i); } else { SolverAdvances(b, stack, i); }
    case Utility => UtilityAdvances(b, stack, i);
  }

  lemma UtilityAdvances(b: seq<Brch>, stack: seq<nat>, i: nat)
    requires i < |b| && Linked(b, stack, i) && b[i].Class() == Utility
    ensures Advances(b, LinkOne(b, stack, i), i)
  {
    match b[i].typ
    case MacEnd => MacEndAdvances(b, stack, i);
    case Recall => RecallAdvances(b, stack, i);
    case Dump => if stack != [] { TakeOneAdvances(b, stack, i); }
    case _ =>
  }

  /** The explicit stack and the scans agree after every Branch. */
  lemma {:induction false} LinkAllAdvances(b: seq<Brch>, n: nat)
    requires n < |b|
    ensures Advances(b, LinkAll(b, n), n)
  {
    hide LinkOne;
    if n > 0 {
      LinkAllAdvances(b, n - 1);
      var s := LinkAll(b, n - 1);
      if s.Good? { LinkOneAdvances(s.b, s.stack, n); }
    }
  }

  /** After a refusal nothing is linked any more. */
  lemma {:induction false} RefusedStays(b: seq<Brch>, i: nat, n: nat)
    requires 0 < i <= n < |b| && LinkAll(b, i).Bad?
    ensures LinkAll(b, n).Bad?
    decreases n
  {
    hide LinkOne;
    if i < n { RefusedStays(b, i, n - 1); }
  }
}

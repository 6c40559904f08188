/**
 Checking a model: linking Branches to their parents and children, and
 spreading inactivity from suppressed Branches along those links.
*/
module Checker {
  import opened ActivitySpec
  import opened Branches
  import opened LinkSpec
  import opened LinkStack
  import opened Operands

  // ----- the checker -----

  /** Going from `before` to `after` is what the stack prescribes. */
  ghost predicate Matches(before: seq<Brch>, r: Links, status: Status, after: seq<Brch>) {
    match r
    case Bad(s) => status == s && s != Success && SameBranches(before, after)
    case Good(b, _) => status == Success && after == b
  }

  lemma TopIsLast(b: seq<Brch>, stack: seq<nat>, i: nat, j: nat)
    requires Tracks(b, stack, i) && 0 < j < i && IsOpen(b, j)
    requires forall k :: j < k < i ==> !IsOpen(b, k)
    ensures stack != [] && Top(stack) == j
  {
    assert j in stack;
    assert Top(stack) in stack;
  }

  lemma BottomIsOpen(b: seq<Brch>, stack: seq<nat>, i: nat)
    requires Tracks(b, stack, i)
    ensures stack != [] ==> 0 < stack[0] < i && IsOpen(b, stack[0])
  {
    if stack != [] { assert stack[0] in stack; }
  }

  class Model {
    var brch: seq<Brch>
    var checked: bool

    constructor (branches: seq<Brch>)
      requires |branches| > 0
      ensures brch == branches && !checked
    {
      brch, checked := branches, false;
    }

    /** Scans back for the nearest unclaimed Branch. */
    method FindOpen(ibrch: nat, ghost stack: seq<nat>) returns (ibrchl: nat)
      requires ibrch < |brch| && Tracks(brch, stack, ibrch)
      ensures ibrchl == if stack == [] then 0 else Top(stack)
    {
      ibrchl := 0;
      var jbrch := ibrch - 1;
      while jbrch > 0
        invariant 0 <= jbrch < ibrch
        invariant forall k :: jbrch < k < ibrch ==> !IsOpen(brch, k)
      {
        if brch[jbrch].ichld == 0 {
          TopIsLast(brch, stack, ibrch, jbrch);
          return jbrch;
        }
        jbrch := jbrch - 1;
      }
      BottomIsOpen(brch, stack, ibrch);
    }

    /** Scans back for the nearest two. */
    method FindTwoOpen(ibrch: nat, ghost stack: seq<nat>) returns (ibrchl: nat, ibrchr: nat)
      requires ibrch < |brch| && Tracks(brch, stack, ibrch)
      ensures ibrchl == 0 || ibrchr == 0 <==> |stack| < 2
      ensures |stack| >= 2 ==> ibrchr == Top(stack) && ibrchl == Top(Pop(stack))
    {
      ibrchl, ibrchr := 0, 0;
      var jbrch := ibrch - 1;
      while jbrch > 0 && ibrchl == 0
        invariant 0 <= jbrch < ibrch
        invariant ibrchr == 0 ==> ibrchl == 0 && forall k :: jbrch < k < ibrch ==> !IsOpen(brch, k)
        invariant ibrchr != 0 ==> stack != [] && ibrchr == Top(stack) && jbrch < ibrchr
        invariant ibrchr != 0 && ibrchl == 0 ==> forall k :: jbrch < k < ibrch && IsOpen(brch, k) ==> k == ibrchr
        invariant ibrchl != 0 ==> |stack| >= 2 && ibrchl == Top(Pop(stack))
      {
        if brch[jbrch].ichld == 0 {
          if ibrchr == 0 {
            TopIsLast(brch, stack, ibrch, jbrch);
            ibrchr := jbrch;
          } else {
            SecondFromTop(brch, stack, ibrch, jbrch);
            ibrchl := jbrch;
          }
        }
        jbrch := jbrch - 1;
      }
      if ibrchr == 0 {
        BottomIsOpen(brch, stack, ibrch);
      } else if ibrchl == 0 {
        OnlyOne(brch, stack, ibrch);
      }
    }

    /** Links Branch `i` to left parent `l`. */
    method Adopt(l: nat, i: nat)
      requires 0 < l < i < |brch|
      modifies this`brch
      ensures brch == SetChild(old(brch), l, i)[i := old(brch[i]).(ileft := l, ichld := 0)]
    {
      brch := brch[i := brch[i].(ileft := l)];
      brch := brch[l := brch[l].(ichld := i)];
      brch := brch[i := brch[i].(ichld := 0)];
    }

    method LinkGrown(i: nat, ghost stack: seq<nat>) returns (status: Status)
      requires i < |brch| && Tracks(brch, stack, i) && brch[i].Class() == Grown && !brch[i].typ.Loft?
      modifies this`brch
      ensures Matches(old(brch), LinkOne(old(brch), stack, i), status, brch)
    {
      var ibrchl := FindOpen(i, stack);
      if ibrchl == 0 { return ExpectingOneSketch; }
      Adopt(ibrchl, i);
      status := Success;
    }

    method LinkApplied(i: nat, ghost stack: seq<nat>) returns (status: Status)
      requires i < |brch| && Tracks(brch, stack, i) && brch[i].Class() == Applied
      modifies this`brch
      ensures Matches(old(brch), LinkOne(old(brch), stack, i), status, brch)
    {
      var ibrchl := FindOpen(i, stack);
      if ibrchl == 0 || brch[ibrchl].typ.SkEnd? { return ExpectingOneBody; }
      Adopt(ibrchl, i);
      status := Success;
    }

    method LinkBoolean(i: nat, ghost stack: seq<nat>) returns (status: Status)
      requires i < |brch| && Tracks(brch, stack, i) && brch[i].Class() == Boolean
      modifies this`brch
      ensures Matches(old(brch), LinkOne(old(brch), stack, i), status, brch)
    {
      var ibrchl, ibrchr := FindTwoOpen(i, stack);
      if ibrchl == 0 || ibrchr == 0 { return ExpectingTwoBodys; }
      brch := brch[i := brch[i].(ileft := ibrchl)];
      brch := brch[ibrchl := brch[ibrchl].(ichld := i)];
      brch := brch[i := brch[i].(irite := ibrchr)];
      brch := brch[ibrchr := brch[ibrchr].(ichld := i)];
      brch := brch[i := brch[i].(ichld := 0)];
      status := Success;
    }

    method LinkTransform(i: nat, ghost stack: seq<nat>) returns (status: Status)
      requires i < |brch| && Tracks(brch, stack, i) && brch[i].Class() == Transform
      modifies this`brch
      ensures Matches(old(brch), LinkOne(old(brch), stack, i), status, brch)
    {
      var ibrchl := FindOpen(i, stack);
      if ibrchl == 0 { return ExpectingOneBody; }
      Adopt(ibrchl, i);
      status := Success;
    }

    /** Scans back to the mark, claiming every Branch on the way. */
    method LinkLoftBranch(i: nat, ghost stack: seq<nat>) returns (status: Status)
      requires i < |brch| && Tracks(brch, stack, i) && brch[i].typ.Loft?
      modifies this`brch
      ensures Matches(old(brch), LinkOne(old(brch), stack, i), status, brch)
    {
      hide Tracks, Above, Below, Skinned, LinkOne, SameBranches, UpTo;
      AtLoft(brch, stack, i);
      NothingAbove(stack, i);
      NoSkins(brch, i);
      var imark, nsketch := 0, 0;
      var jbrch := i - 1;
      ghost var b := brch;
      while jbrch > 0 && imark == 0
        invariant 0 <= jbrch < i
        invariant imark == 0 ==> Nearest(b, i - 1, {Mark}) == Nearest(b, jbrch, {Mark})
        invariant imark != 0 ==> jbrch > 0 && Nearest(b, i - 1, {Mark}) == jbrch
        invariant brch == Skinned(b, Above(stack, jbrch), i) && nsketch == |Above(stack, jbrch)|
        decreases jbrch, 1 - imark
      {
        SkinStep(b, stack, i, jbrch);
        if brch[jbrch].typ.Mark? {
          imark := 1;
        } else {
          if brch[jbrch].ichld == 0 {
            nsketch := nsketch + 1;
            Adopt(jbrch, i);
          }
          jbrch := jbrch - 1;
        }
      }
      SkinnedSame(b, Above(stack, jbrch), i);
      LoftVerdict(b, stack, i);
      if imark == 0 { return LoftWithoutMark; }
      if nsketch < 1 { return ExpectingNLoftSketches; }
      if nsketch >= MAX_NUM_SKETCHES { return TooManySketchesInLoft; }
      status := Success;
    }

    method LinkSketchBranch(i: nat, ghost stack: seq<nat>) returns (status: Status)
      requires i < |brch| && Tracks(brch, stack, i) && brch[i].Class() == Sketch && !brch[i].typ.SkBeg?
      modifies this`brch
      ensures Matches(old(brch), LinkOne(old(brch), stack, i), status, brch)
    {
      var ibrchl: nat := 0;
      var jbrch := i - 1;
      while jbrch > 0 && ibrchl == 0
        invariant 0 <= jbrch < i && brch == old(brch)
        invariant ibrchl == 0 ==> Nearest(brch, i - 1, {SkEnd, SolEnd, SkBeg}) == Nearest(brch, jbrch, {SkEnd, SolEnd, SkBeg})
        invariant ibrchl != 0 ==> 0 < ibrchl == Nearest(brch, i - 1, {SkEnd, SolEnd, SkBeg}) && brch[ibrchl].typ.SkBeg?
      {
        if brch[jbrch].typ.SkEnd? { return SketcherIsOpen; }
        if brch[jbrch].typ.SolEnd? { return SolverIsNotOpen; }
        if brch[jbrch].typ.SkBeg? { ibrchl := jbrch; }
        jbrch := jbrch - 1;
      }
      if ibrchl == 0 { return SketcherIsNotOpen; }
      Adopt(i - 1, i);
      status := Success;
    }

    method LinkSolverBranch(i: nat, ghost stack: seq<nat>) returns (status: Status)
      requires i < |brch| && Tracks(brch, stack, i) && brch[i].Class() == Solver && !brch[i].typ.SolBeg?
      modifies this`brch
      ensures Matches(old(brch), LinkOne(old(brch), stack, i), status, brch)
    {
      var ibrchl: nat := 0;
      var jbrch := i - 1;
      while jbrch > 0 && ibrchl == 0
        invariant 0 <= jbrch < i && brch == old(brch)
        invariant ibrchl == 0 ==> Nearest(brch, i - 1, {SolEnd, SkEnd, SolBeg}) == Nearest(brch, jbrch, {SolEnd, SkEnd, SolBeg})
        invariant ibrchl != 0 ==> 0 < ibrchl == Nearest(brch, i - 1, {SolEnd, SkEnd, SolBeg}) && brch[ibrchl].typ.SolBeg?
      {
        if brch[jbrch].typ.SolEnd? { return SolverIsOpen; }
        if brch[jbrch].typ.SkEnd? { return SketcherIsNotOpen; }
        if brch[jbrch].typ.SolBeg? { ibrchl := jbrch; }
        jbrch := jbrch - 1;
      }
      if ibrchl == 0 { return SolverIsNotOpen; }
      Adopt(ibrchl, i);
      status := Success;
    }

    /** Scans back to the matching macro beginning, claiming every Branch on the way. */
    method LinkMacEndBranch(i: nat, ghost stack: seq<nat>)
      requires i < |brch| && Tracks(brch, stack, i) && brch[i].typ.MacEnd?
      modifies this`brch
      ensures brch == LinkMacEnd(old(brch), stack, i).b
    {
      hide Tracks, Above, Below, LinkMacEnd, SetChildren;
      BeforeClaiming(brch, stack, i);
      ghost var b := brch;
      ghost var x := b[i].(ileft := 0, irite := 0, ichld := 0);
      brch := brch[i := brch[i].(ileft := 0, irite := 0, ichld := 0)];
      var nmacro := 1;
      var jbrch := i - 1;
      while jbrch > 0
        invariant 0 <= jbrch < i && nmacro >= 1
        invariant MatchBeg(b, i - 1, 1) == MatchBeg(b, jbrch, nmacro)
        invariant brch == SetChildren(b, Above(stack, jbrch), i)[i := x]
      {
        ClaimStep(b, stack, i, jbrch, x);
        if brch[jbrch].typ.MacEnd? {
          nmacro := nmacro + 1;
        } else if brch[jbrch].typ.MacBeg? {
          nmacro := nmacro - 1;
        }
        if brch[jbrch].ichld == 0 {
          brch := brch[jbrch := brch[jbrch].(ichld := i)];
        }
        if nmacro <= 0 {
          MacroClosed(b, stack, i, jbrch, x);
          brch := brch[i := brch[i].(ileft := jbrch, irite := i, ichld := -1)];
          return;
        }
        jbrch := jbrch - 1;
      }
      NoMacroToClose(b, stack, i, x);
    }

    method LinkDump(i: nat, ghost stack: seq<nat>) returns (status: Status)
      requires i < |brch| && Tracks(brch, stack, i) && brch[i].typ.Dump?
      modifies this`brch
      ensures Matches(old(brch), LinkOne(old(brch), stack, i), status, brch)
    {
      var ibrchl: nat := 0;
      var jbrch := i - 1;
      while jbrch > 0 && ibrchl == 0
        invariant 0 <= jbrch < i && brch == old(brch)
        invariant ibrchl == 0 ==> forall k :: jbrch < k < i && IsOpen(brch, k) ==> brch[k].typ.MacEnd?
        invariant ibrchl != 0 ==> stack != [] && ibrchl == Top(stack) && !brch[ibrchl].typ.MacEnd?
      {
        if brch[jbrch].ichld == 0 && !brch[jbrch].typ.MacEnd? {
          MacEndsAreAtTheBottom(brch, stack, i, jbrch);
          ibrchl := jbrch;
        }
        jbrch := jbrch - 1;
      }
      if ibrchl == 0 {
        if stack != [] { assert Top(stack) in stack; }
        return ExpectingOneBody;
      }
      Adopt(ibrchl, i);
      status := Success;
    }

    /** Links one Branch, as its class and type demand. */
    method LinkBranch(i: nat, ghost stack: seq<nat>) returns (status: Status)
      requires i < |brch| && Tracks(brch, stack, i)
      modifies this`brch
      ensures Matches(old(brch), LinkOne(old(brch), stack, i), status, brch)
    {
      var typ, class_ := brch[i].typ, brch[i].Class();
      status := Success;
      if class_ == Primitive || typ.SkBeg? || typ.SolBeg? {
        brch := brch[i := brch[i].(ichld := 0)];
      } else if typ.Loft? {
        status := LinkLoftBranch(i, stack);
      } else if class_ == Grown {
        status := LinkGrown(i, stack);
      } else if class_ == Applied {
        status := LinkApplied(i, stack);
      } else if class_ == Boolean {
        status := LinkBoolean(i, stack);
      } else if class_ == Transform {
        status := LinkTransform(i, stack);
      } else if class_ == Sketch {
        status := LinkSketchBranch(i, stack);
      } else if class_ == Solver {
        status := LinkSolverBranch(i, stack);
      } else if typ.MacEnd? {
        LinkMacEndBranch(i, stack);
      } else if typ.Recall? {
        brch := brch[i := brch[i].(ileft := 0, irite := 0, ichld := 0)];
      } else if typ.Dump? {
        status := LinkDump(i, stack);
      }
    }

    /** ACTIVE becomes INACTIVE. */
    method MarkInactive(k: nat, ghost b: seq<Brch>, ghost seen: set<int>)
      requires 0 < k < |brch| && Inactivated(b, brch, seen)
      modifies this`brch
      ensures Inactivated(b, brch, seen + {k})
    {
      if brch[k].actv == Active {
        brch := brch[k := brch[k].(actv := Inactive)];
      }
    }

    /** Left parents of `p` up to the next Branch of type `stop`. */
    method InactivateLeft(p: nat, stop: Type, ghost b: seq<Brch>, ghost done: set<int>)
      requires 0 < p < |b| && Directed(b, |b|) && Inactivated(b, brch, done)
      modifies this`brch
      ensures Inactivated(b, brch, done + LeftWalk(b, b[p].ileft, stop))
    {
      hide Inactivated, Directed, LeftWalk;
      LinksKept(b, brch, done, p);
      WalksOn(b, p);
      var ileft := brch[p].ileft;
      ghost var seen := done;
      ghost var all := done + LeftWalk(b, ileft, stop);
      while ileft > 0
        invariant ileft < |b| && Inactivated(b, brch, seen)
        invariant all == seen + LeftWalk(b, ileft, stop)
        decreases ileft
      {
        LinksKept(b, brch, seen, ileft);
        LeftStep(b, ileft, stop, seen);
        MarkInactive(ileft, b, seen);
        seen := seen + {ileft};
        LinksKept(b, brch, seen, ileft);
        if brch[ileft].typ == stop {
          return;
        }
        ileft := brch[ileft].ileft;
      }
      LeftOver(b, ileft, stop, seen);
    }

    /** APPLIED children from `c` on. */
    method InactivateApplied(c: int, ghost b: seq<Brch>, ghost done: set<int>)
      requires c < |b| && Directed(b, |b|) && Inactivated(b, brch, done)
      modifies this`brch
      ensures Inactivated(b, brch, done + AppliedWalk(b, c))
    {
      var ichld := c;
      ghost var seen := done;
      ghost var all := done + AppliedWalk(b, c);
      while ichld > 0
        invariant ichld < |b| && Inactivated(b, brch, seen)
        invariant all == seen + AppliedWalk(b, ichld)
        decreases if ichld > 0 then |b| - ichld else 0
      {
        if brch[ichld].Class() != Applied {
          assert all == seen;
          return;
        }
        MarkInactive(ichld, b, seen);
        seen := seen + {ichld};
        ichld := brch[ichld].ichld;
      }
      assert all == seen;
    }

    /** Children of `p` up to the next BOOLEAN, and the APPLIED Branches after it. */
    method InactivateChildren(p: nat, ghost b: seq<Brch>, ghost done: set<int>)
      requires 0 < p < |b| && Directed(b, |b|) && Inactivated(b, brch, done)
      modifies this`brch
      ensures Inactivated(b, brch, done + ChildWalk(b, b[p].ichld))
    {
      var ichld := brch[p].ichld;
      ghost var seen := done;
      ghost var all := done + ChildWalk(b, ichld);
      while ichld > 0
        invariant ichld < |b| && Inactivated(b, brch, seen)
        invariant all == seen + ChildWalk(b, ichld)
        decreases if ichld > 0 then |b| - ichld else 0
      {
        MarkInactive(ichld, b, seen);
        seen := seen + {ichld};
        if brch[ichld].Class() == Boolean {
          InactivateApplied(brch[ichld].ichld, b, seen);
          assert all == seen + AppliedWalk(b, b[ichld].ichld);
          return;
        }
        ichld := brch[ichld].ichld;
      }
      assert all == seen;
    }

    /** Spreads inactivity from one suppressed Branch. */
    method SpreadFrom(p: nat, ghost b: seq<Brch>, ghost done: set<int>)
      requires 0 < p < |b| && Directed(b, |b|) && Inactivated(b, brch, done)
      modifies this`brch
      ensures Inactivated(b, brch, done + Reach(b, p))
    {
      ghost var seen := done;
      if brch[p].Class() == Grown {
        var stop := if brch[p].typ.Loft? then Mark else SkBeg;
        InactivateLeft(p, stop, b, seen);
        seen := seen + LeftWalk(b, b[p].ileft, stop);
      }
      if brch[p].Class() == Primitive || brch[p].Class() == Grown {
        InactivateChildren(p, b, seen);
        seen := seen + ChildWalk(b, b[p].ichld);
      }
      assert seen == done + Reach(b, p);
    }

    /** Activates everything that is not suppressed. */
    method ActivateAll()
      modifies this`brch
      ensures Activated(old(brch), brch, |old(brch)|)
    {
      var ibrch := 1;
      while ibrch < |brch|
        invariant 1 <= ibrch && Activated(old(brch), brch, ibrch)
      {
        if brch[ibrch].actv != Suppressed {
          brch := brch[ibrch := brch[ibrch].(actv := Active)];
        }
        ibrch := ibrch + 1;
      }
    }

    /** Spreads inactivity from every suppressed Branch. */
    method SpreadAll()
      requires |brch| > 0 && Directed(brch, |brch|)
      modifies this`brch
      ensures Inactivated(old(brch), brch, Reached(old(brch), |old(brch)|))
    {
      ghost var b := brch;
      var ibrch := 1;
      while ibrch < |brch|
        invariant 1 <= ibrch <= |b| && Inactivated(b, brch, Reached(b, ibrch))
      {
        if brch[ibrch].actv == Suppressed {
          SpreadFrom(ibrch, b, Reached(b, ibrch));
        }
        ibrch := ibrch + 1;
      }
    }

    /** Defers what is active inside macro definitions. */
    method DeferAll()
      requires |brch| > 0
      modifies this`brch
      ensures IsDeferred(old(brch), brch, |old(brch)|)
    {
      ghost var b := brch;
      var nmacro := 0;
      var ibrch := 1;
      while ibrch < |brch|
        invariant 1 <= ibrch <= |b| && nmacro == MacroDepth(b, ibrch) && IsDeferred(b, brch, ibrch)
      {
        if brch[ibrch].actv == Active && nmacro > 0 {
          brch := brch[ibrch := brch[ibrch].(actv := Deferred)];
        }
        if brch[ibrch].typ.MacBeg? {
          nmacro := nmacro + 1;
        } else if brch[ibrch].typ.MacEnd? {
          nmacro := nmacro - 1;
        }
        ibrch := ibrch + 1;
      }
    }

    /** Clears all links. */
    method Unlink()
      requires |brch| > 0
      modifies this`brch
      ensures brch == Unlinked(old(brch))
    {
      ghost var b := brch;
      var ibrch := 1;
      while ibrch < |brch|
        invariant 1 <= ibrch <= |b| == |brch|
        invariant forall k :: 0 < k < ibrch ==> brch[k] == b[k].(ileft := -1, irite := -1, ichld := -1)
        invariant forall k :: k == 0 || ibrch <= k < |b| ==> brch[k] == b[k]
      {
        brch := brch[ibrch := brch[ibrch].(ileft := -1, irite := -1, ichld := -1)];
        ibrch := ibrch + 1;
      }
    }

    /** Links every Branch, or stops at the first that is refused. */
    method LinkBranches() returns (status: Status, ipass: nat)
      requires |brch| > 0
      modifies this`brch
      ensures status == Success ==> Passes(old(brch)) && brch == LinksOf(old(brch))
      ensures status != Success ==> FirstRefused(old(brch), ipass + 1, status) && SameBranches(old(brch), brch)
    {
      hide LinkOne, Directed, Tracks;
      ghost var b := brch;
      Unlink();
      ghost var stack: seq<nat> := [];
      LinkAllAdvances(b, 0);
      ipass := 0;
      var ibrch := 1;
      while ibrch < |brch|
        invariant 1 <= ibrch <= |b| == |brch| && ipass == ibrch - 1
        invariant LinkAll(b, ibrch - 1) == Good(brch, stack)
        invariant Linked(brch, stack, ibrch) && SameBranches(b, brch)
      {
        ghost var r := LinkOne(brch, stack, ibrch);
        LinkNext(b, ibrch, brch, stack);
        status := LinkBranch(ibrch, stack);
        if status != Success { return; }
        stack := r.stack;
        ipass := ibrch;
        ibrch := ibrch + 1;
      }
      status := Success;
    }

    /** Checks the model: links, then activities. */
    method Check() returns (status: Status)
      requires |brch| > 0
      modifies this
      ensures status == Success <==> Passes(old(brch))
      ensures status == Success ==> checked && brch == Checked(old(brch)) && AllSatisfied(brch, |brch|)
      ensures status != Success ==>
        checked == old(checked) && SameBranches(old(brch), brch) &&
        exists i: nat :: FirstRefused(old(brch), i, status) && RefusedFor(old(brch), i, status) && (checked || brch[i].ileft == -2)
    {
      hide LinkOne, Reached, Outcome, Settle, AllSatisfied, RefusedFor;
      ghost var b := brch;
      var ipass;
      status, ipass := LinkBranches();
      if status != Success {
        RefusedStays(b, ipass + 1, |b| - 1);
        RefusedForIff(b, ipass + 1, status);
        if !checked { brch := brch[ipass + 1 := brch[ipass + 1].(ileft := -2)]; }
        return;
      }
      ghost var linked := brch;
      ActivateAll();
      ghost var active := brch;
      ActivatedOnly(linked, active);
      SpreadAll();
      ghost var spread := brch;
      DeferAll();
      PassesSettle(linked, active, spread, brch);
      CheckedSatisfies(b);
      checked := true;
    }
  }

  /** `a` is `b` with what is not suppressed activated, up to Branch `n`. */
  ghost predicate Activated(b: seq<Brch>, a: seq<Brch>, n: int) {
    |a| == |b| && forall k :: 0 <= k < |b| ==>
      a[k] == if 0 < k < n && b[k].actv != Suppressed then b[k].(actv := Active) else b[k]
  }

  /** `a` is `b` with the ACTIVE Branches among `ks` made INACTIVE. */
  ghost predicate Inactivated(b: seq<Brch>, a: seq<Brch>, ks: set<int>) {
    |a| == |b| && forall k :: 0 <= k < |b| ==>
      a[k] == if k > 0 && k in ks && b[k].actv == Active then b[k].(actv := Inactive) else b[k]
  }

  lemma LinksKept(b: seq<Brch>, a: seq<Brch>, ks: set<int>, k: nat)
    requires Inactivated(b, a, ks) && k < |b|
    ensures |a| == |b| && a[k].typ == b[k].typ && a[k].ileft == b[k].ileft && a[k].ichld == b[k].ichld
  {
  }

  lemma WalksOn(b: seq<Brch>, p: nat)
    requires 0 < p < |b| && Directed(b, |b|)
    ensures b[p].ileft < p
  {
  }

  lemma LeftStep(b: seq<Brch>, c: int, stop: Type, seen: set<int>)
    requires 0 < c < |b| && Directed(b, |b|)
    ensures b[c].ileft < c
    ensures seen + LeftWalk(b, c, stop) == if b[c].typ == stop then seen + {c} else seen + {c} + LeftWalk(b, b[c].ileft, stop)
  {
    hide Directed;
    WalksOn(b, c);
    if b[c].typ != stop { assert LeftWalk(b, c, stop) == {c} + LeftWalk(b, b[c].ileft, stop); }
  }

  lemma LeftOver(b: seq<Brch>, c: int, stop: Type, seen: set<int>)
    requires c <= 0 && c < |b| && Directed(b, |b|)
    ensures seen + LeftWalk(b, c, stop) == seen
  {
    hide Directed;
  }

  /** `a` is `b` with the ACTIVE Branches inside macro definitions deferred, up to Branch `n`. */
  ghost predicate IsDeferred(b: seq<Brch>, a: seq<Brch>, n: int) {
    |a| == |b| && forall k :: 0 <= k < |b| ==> a[k] == if 0 < k < n then DeferralAt(b, k) else b[k]
  }

  function DeferralAt(b: seq<Brch>, k: nat): Brch
    requires k < |b|
  {
    if b[k].actv == Active && MacroDepth(b, k) > 0 then b[k].(actv := Deferred) else b[k]
  }

  lemma LinkNext(b: seq<Brch>, i: nat, cur: seq<Brch>, stack: seq<nat>)
    requires 0 < i < |b| == |cur| && LinkAll(b, i - 1) == Good(cur, stack) && Linked(cur, stack, i)
    ensures LinkAll(b, i) == LinkOne(cur, stack, i)
    ensures Advances(cur, LinkOne(cur, stack, i), i)
  {
    LinkOneAdvances(cur, stack, i);
  }

  /** `i` is the first Branch the stack cannot serve. */
  ghost predicate FirstRefused(b: seq<Brch>, i: nat, status: Status) {
    0 < i < |b| && LinkAll(b, i - 1).Good? && LinkAll(b, i) == Bad(status)
  }

  /** Two models that differ in activities at most. */
  ghost predicate OnlyActivities(a: seq<Brch>, b: seq<Brch>) {
    |a| == |b| && forall k :: 0 <= k < |b| ==> a[k] == b[k].(actv := a[k].actv)
  }

  lemma ActivatedOnly(b: seq<Brch>, a: seq<Brch>)
    requires |b| > 0 && Directed(b, |b|) && Activated(b, a, |b|)
    ensures OnlyActivities(a, b) && Directed(a, |b|) && Reached(a, |b|) == Reached(b, |b|)
  {
    SameReached(a, b, |b|);
  }

  /** The three passes together settle every Branch. */
  lemma PassesSettle(b: seq<Brch>, a: seq<Brch>, c: seq<Brch>, d: seq<Brch>)
    requires |b| > 0 && Directed(b, |b|)
    requires Activated(b, a, |b|) && Inactivated(a, c, Reached(b, |b|)) && IsDeferred(c, d, |b|)
    ensures d == Settle(b)
  {
    forall k | 0 < k < |b| ensures d[k] == b[k].(actv := Outcome(b, k)) {
      DeferredAt(b, c, k);
    }
    FromEntries(b, d);
  }

  lemma FromEntries(b: seq<Brch>, d: seq<Brch>)
    requires Directed(b, |b|) && |d| == |b| && (|b| > 0 ==> d[0] == b[0])
    requires forall k :: 0 < k < |b| ==> d[k] == b[k].(actv := Outcome(b, k))
    ensures d == Settle(b)
  {
  }

  lemma DeferredAt(b: seq<Brch>, c: seq<Brch>, k: nat)
    requires OnlyActivities(c, b) && Directed(b, |b|) && 0 < k < |b|
    requires c[k].actv == (if b[k].actv == Suppressed then Suppressed else if k in Reached(b, |b|) then Inactive else Active)
    ensures DeferralAt(c, k) == b[k].(actv := Outcome(b, k))
  {
    SameMacroDepth(c, b, k);
  }

  /** Branches `js` claimed one after the other by the loft `i`. */
  function Skinned(b: seq<Brch>, js: seq<nat>, i: nat): (r: seq<Brch>)
    requires i < |b|
    ensures |r| == |b|
  {
    if js == [] then b else SetChildren(b, js, i)[i := b[i].(ileft := js[0], ichld := 0)]
  }

  lemma SkinnedSame(b: seq<Brch>, js: seq<nat>, i: nat)
    requires i < |b|
    ensures SameBranches(b, Skinned(b, js, i))
  {
  }

  lemma NoSkins(b: seq<Brch>, i: nat)
    requires i < |b|
    ensures Skinned(b, [], i) == b
  {
  }

  /** What the stack says of a loft, in terms of its skins. */
  lemma LoftVerdict(b: seq<Brch>, stack: seq<nat>, i: nat)
    requires 0 < i < |b| && UpTo(stack, i) && b[i].typ.Loft?
    ensures var mark := Nearest(b, i - 1, {Mark});
            var skins := Above(stack, mark);
            var r := LinkOne(b, stack, i);
            if mark == 0 then r == Bad(LoftWithoutMark)
            else if |skins| < 1 then r == Bad(ExpectingNLoftSketches)
            else if |skins| >= MAX_NUM_SKETCHES then r == Bad(TooManySketchesInLoft)
            else r.Good? && r.b == Skinned(b, skins, i)
  {
  }

  lemma BeforeClaiming(b: seq<Brch>, stack: seq<nat>, i: nat)
    requires i < |b| && Tracks(b, stack, i)
    ensures 0 < i && Above(stack, i - 1) == [] && SetChildren(b, [], i) == b && UpTo(stack, i)
  {
    NothingAbove(stack, i);
  }

  lemma AtLoft(b: seq<Brch>, stack: seq<nat>, i: int)
    requires Tracks(b, stack, i)
    ensures 0 < i <= |b| && UpTo(stack, i)
  {
  }

  lemma NothingAbove(stack: seq<nat>, i: int)
    requires UpTo(stack, i)
    ensures Above(stack, i - 1) == []
  {
  }

  /** One step of the loft's scan. */
  lemma SkinStep(b: seq<Brch>, stack: seq<nat>, i: nat, j: nat)
    requires i < |b| && Tracks(b, stack, i) && 0 < j < i
    ensures var c, d := Skinned(b, Above(stack, j), i), Skinned(b, Above(stack, j - 1), i);
            && c[j].typ == b[j].typ && c[j].ichld == b[j].ichld
            && (if IsOpen(b, j)
                then d == SetChild(c, j, i)[i := c[i].(ileft := j, ichld := 0)] && |Above(stack, j - 1)| == |Above(stack, j)| + 1
                else Above(stack, j - 1) == Above(stack, j))
  {
    AboveStep(stack, j);
    CutMembers(stack, j);
    SkinOne(b, Above(stack, j), i, j);
  }

  lemma SkinOne(b: seq<Brch>, js: seq<nat>, i: nat, j: nat)
    requires 0 < j < i < |b| && j !in js && i !in js
    ensures var c := Skinned(b, js, i);
            && c[j] == b[j]
            && Skinned(b, [j] + js, i) == SetChild(c, j, i)[i := c[i].(ileft := j, ichld := 0)]
  {
  }

  /** One step of the macro end's scan. */
  lemma ClaimStep(b: seq<Brch>, stack: seq<nat>, i: nat, j: nat, x: Brch)
    requires i < |b| && Tracks(b, stack, i) && 0 < j < i
    ensures var c, d := SetChildren(b, Above(stack, j), i)[i := x], SetChildren(b, Above(stack, j - 1), i)[i := x];
            && c[j].typ == b[j].typ && c[j].ichld == b[j].ichld
            && d == if IsOpen(b, j) then SetChild(c, j, i) else c
  {
    hide Cut, SetChildren, Below;
    AboveStep(stack, j);
    CutMembers(stack, j);
    ClaimOne(b, Above(stack, j), i, j, x);
  }

  lemma ClaimOne(b: seq<Brch>, js: seq<nat>, i: nat, j: nat, x: Brch)
    requires 0 < j < i < |b| && j !in js
    ensures var c := SetChildren(b, js, i)[i := x];
            c[j] == b[j] && SetChildren(b, [j] + js, i)[i := x] == SetChild(c, j, i)
  {
  }

  lemma MacroClosed(b: seq<Brch>, stack: seq<nat>, i: nat, m: nat, x: Brch)
    requires i < |b| && Tracks(b, stack, i) && b[i].typ.MacEnd?
    requires MatchBeg(b, i - 1, 1) == m > 0 && x == b[i].(ileft := 0, irite := 0, ichld := 0)
    ensures var c := SetChildren(b, Above(stack, m - 1), i)[i := x];
            LinkMacEnd(b, stack, i).b == c[i := c[i].(ileft := m, irite := i, ichld := -1)]
  {
    var c := SetChildren(b, Above(stack, m - 1), i);
    assert c[i := x][i := b[i].(ileft := m, irite := i, ichld := -1)] == c[i := b[i].(ileft := m, irite := i, ichld := -1)];
  }

  lemma NoMacroToClose(b: seq<Brch>, stack: seq<nat>, i: nat, x: Brch)
    requires i < |b| && Tracks(b, stack, i) && b[i].typ.MacEnd?
    requires MatchBeg(b, i - 1, 1) == 0 && x == b[i].(ileft := 0, irite := 0, ichld := 0)
    ensures LinkMacEnd(b, stack, i).b == SetChildren(b, Above(stack, 0), i)[i := x]
  {
  }

  lemma MacEndsAreAtTheBottom(b: seq<Brch>, stack: seq<nat>, i: nat, j: nat)
    requires Tracks(b, stack, i) && 0 < j < i && IsOpen(b, j) && !b[j].typ.MacEnd?
    requires forall k :: j < k < i && IsOpen(b, k) ==> b[k].typ.MacEnd?
    ensures stack != [] && Top(stack) == j
  {
    assert j in stack;
    assert Top(stack) in stack;
  }

  lemma SecondFromTop(b: seq<Brch>, stack: seq<nat>, i: nat, j: nat)
    requires Tracks(b, stack, i) && stack != [] && 0 < j < Top(stack) && IsOpen(b, j)
    requires forall k :: j < k < i && IsOpen(b, k) ==> k == Top(stack)
    ensures |stack| >= 2 && Top(Pop(stack)) == j
  {
    PopMembers(stack);
    assert j in Pop(stack);
    assert Top(Pop(stack)) in stack;
  }

  lemma OnlyOne(b: seq<Brch>, stack: seq<nat>, i: nat)
    requires Tracks(b, stack, i) && stack != []
    requires forall k :: 0 < k < i && IsOpen(b, k) ==> k == Top(stack)
    ensures |stack| == 1
  {
    assert stack[0] in stack;
  }
}

/**
 Parents and children in straight-line models whose sketches are not interrupted: links go
 both ways, and connect only what can be connected.
*/
module Parents {
  import opened ActivitySpec
  import opened Basics
  import opened BodyStack
  import opened Branches
  import opened LinkSpec
  import opened LinkStack

  /** Nothing else is inside of a sketch. */
  predicate StraightLine(b: seq<Brch>) {
    && Straight(b)
    && (forall i :: 0 < i < |b| - 1 && OpensSketch(b[i].typ) ==> InsideSketch(b[i + 1].typ))
  }

  /** Only Branches the links of which are followed forwards are suppressed. */
  predicate Suppressible(b: seq<Brch>) {
    forall i :: 0 < i < |b| && b[i].actv == Suppressed ==> b[i].Class() in {Primitive, Applied, Transform}
  }

  predicate HasParent(b: seq<Brch>, i: nat, j: int)
    requires i < |b|
  {
    || ((IsUnary(b[i].typ) || InsideSketch(b[i].typ)) && j == b[i].ileft)
    || (b[i].Class() == Boolean && (j == b[i].ileft || j == b[i].irite))
  }

  /** Parents come first, know their child, and are of a fitting kind. */
  ghost predicate ParentsFit(b: seq<Brch>, n: nat)
    requires n <= |b|
  {
    forall i, j {:trigger HasParent(b, i, j)} :: 0 < i < n && HasParent(b, i, j) ==>
      0 < j < i && b[j].ichld == i && if InsideSketch(b[i].typ) then OpensSketch(b[j].typ) else IsOperand(b[j].typ)
  }

  /** Children know their parents. */
  ghost predicate ChildrenFit(b: seq<Brch>, n: nat)
    requires n <= |b|
  {
    forall i, j {:trigger HasParent(b, i, j)} :: 0 < i < n && 0 < j < n && b[j].ichld == i ==> HasParent(b, i, j)
  }

  /** Links go both ways, and connect only what can be connected. */
  ghost predicate TwoWay(b: seq<Brch>, n: nat)
    requires n <= |b|
  {
    ParentsFit(b, n) && ChildrenFit(b, n) && forall i :: 0 < i < n && b[i].Class() == Boolean ==> b[i].ileft != b[i].irite
  }

  /** The stack of a straight-line model: operands, and perhaps an open sketch on top. */
  ghost predicate GoodStack(b: seq<Brch>, stack: seq<nat>, i: nat) {
    UpTo(stack, i) && i <= |b| && forall k :: 0 <= k < |stack| ==>
      IsOperand(b[stack[k]].typ) || (OpensSketch(b[stack[k]].typ) && k == |stack| - 1 && stack[k] == i - 1)
  }

  /** If the last sketch that was begun has not been ended, Branch `j` is part of it. */
  lemma {:induction false} SketchBefore(b: seq<Brch>, j: nat)
    requires StraightLine(b) && j < |b|
    requires Nearest(b, j, {SkEnd, SolEnd, SkBeg}) > 0 && b[Nearest(b, j, {SkEnd, SolEnd, SkBeg})].typ.SkBeg?
    ensures j > 0 && OpensSketch(b[j].typ)
  {
    if !b[j].typ.SkBeg? { SketchBefore(b, j - 1); }
  }

  /** Everything known of a straight-line model before Branch `i` is linked. */
  ghost predicate InOrder(b: seq<Brch>, stack: seq<nat>, i: nat) {
    && StraightLine(b) && Linked(b, stack, i)
    && TwoWay(b, i) && GoodStack(b, stack, i)
    && (i > 1 && OpensSketch(b[i - 1].typ) ==> stack != [] && Top(stack) == i - 1)
  }

  /** Branch `i` has been linked. */
  ghost predicate Steps(b: seq<Brch>, stack: seq<nat>, r: Links, i: nat)
    requires i < |b|
  {
    r.Good? ==> StepsTo(b, stack, r.b, r.stack, i)
  }

  ghost predicate StepsTo(b: seq<Brch>, stack: seq<nat>, c: seq<Brch>, after: seq<nat>, i: nat)
    requires i < |b|
  {
    && SameBranches(b, c) && InOrder(c, after, i + 1)
    && forall j :: 0 < j < i ==> c[j].ileft == b[j].ileft && c[j].irite == b[j].irite
  }

  /** `c` is `b` with Branch `i` linked to its parents, and nothing else changed. */
  ghost predicate Joined(b: seq<Brch>, c: seq<Brch>, i: nat) {
    && 0 < i < |b| == |c|
    && (forall j :: 0 < j < i ==> c[j].ileft == b[j].ileft && c[j].irite == b[j].irite)
    && (forall j :: 0 < j < i ==> c[j].ichld == if HasParent(c, i, j) then i else b[j].ichld)
    && (forall j {:trigger HasParent(c, i, j)} :: HasParent(c, i, j) ==> 0 < j < i && b[j].ichld == 0)
  }

  lemma JoinKeepsTwoWay(b: seq<Brch>, c: seq<Brch>, i: nat)
    requires Joined(b, c, i) && SameBranches(b, c) && TwoWay(b, i) && Directed(b, i) && c[i].ichld <= 0
    requires forall j {:trigger HasParent(c, i, j)} :: HasParent(c, i, j) ==>
      if InsideSketch(c[i].typ) then OpensSketch(c[j].typ) else IsOperand(c[j].typ)
    requires c[i].Class() == Boolean ==> c[i].ileft != c[i].irite
    ensures TwoWay(c, i + 1)
  {
    forall k: nat, j | 0 < k < i + 1 && HasParent(c, k, j)
      ensures 0 < j < k && c[j].ichld == k && if InsideSketch(c[k].typ) then OpensSketch(c[j].typ) else IsOperand(c[j].typ)
    {
      if k < i {
        assert HasParent(b, k, j);
        assert !HasParent(c, i, j);
      }
    }
    forall k: nat, j | 0 < k < i + 1 && 0 < j < i + 1 && c[j].ichld == k ensures HasParent(c, k, j) {
      if !HasParent(c, i, j) {
        assert HasParent(b, k, j);
      }
    }
  }

  ghost predicate AllOperands(b: seq<Brch>, stack: seq<nat>) {
    forall k :: 0 <= k < |stack| ==> stack[k] < |b| && IsOperand(b[stack[k]].typ)
  }

  /** Before a Branch that is not inside a sketch there are only operands on the stack. */
  lemma OperandsOnly(b: seq<Brch>, stack: seq<nat>, i: nat)
    requires 0 < i < |b| && StraightLine(b) && GoodStack(b, stack, i) && !InsideSketch(b[i].typ)
    ensures AllOperands(b, stack)
  {
  }

  lemma OperandsBelow(b: seq<Brch>, stack: seq<nat>, i: nat)
    requires stack != [] && GoodStack(b, stack, i)
    ensures AllOperands(b, Pop(stack))
  {
  }

  lemma PushGood(b: seq<Brch>, c: seq<Brch>, rest: seq<nat>, i: nat)
    requires SameBranches(b, c) && 0 < i < |b| && AllOperands(b, rest) && UpTo(rest, i)
    requires IsOperand(b[i].typ) || OpensSketch(b[i].typ)
    ensures GoodStack(c, rest + [i], i + 1)
  {
  }

  /** All that has to be known of Branch `i` once it has been linked. */
  lemma IsStep(b: seq<Brch>, stack: seq<nat>, c: seq<Brch>, after: seq<nat>, i: nat)
    requires i < |b| && InOrder(b, stack, i) && Joined(b, c, i)
    requires SameBranches(b, c) && Linked(c, after, i + 1) && TwoWay(c, i + 1) && GoodStack(c, after, i + 1)
    requires OpensSketch(c[i].typ) ==> after != [] && Top(after) == i
    ensures StepsTo(b, stack, c, after, i)
  {
    hide Linked, TwoWay, GoodStack;
  }

  /** The parents of Branch `i`, and nothing else, were joined to it. */
  ghost predicate JoinsWell(b: seq<Brch>, c: seq<Brch>, i: nat) {
    && Joined(b, c, i) && Directed(b, i) && c[i].ichld <= 0 && c[i].typ == b[i].typ
    && (c[i].Class() == Boolean ==> c[i].ileft != c[i].irite)
    && forall j {:trigger HasParent(c, i, j)} :: HasParent(c, i, j) ==>
         if InsideSketch(c[i].typ) then OpensSketch(c[j].typ) else IsOperand(c[j].typ)
  }

  lemma PushJoins(b: seq<Brch>, stack: seq<nat>, i: nat)
    requires i < |b| && Linked(b, stack, i) && (b[i].Class() == Primitive || b[i].typ.SkBeg?)
    ensures JoinsWell(b, PushNew(b, stack, i).b, i)
  {
  }

  lemma PushSteps(b: seq<Brch>, stack: seq<nat>, i: nat)
    requires i < |b| && InOrder(b, stack, i) && (b[i].Class() == Primitive || b[i].typ.SkBeg?)
    ensures Steps(b, stack, PushNew(b, stack, i), i)
  {
    hide TwoWay, GoodStack, Joined, StepsTo, StraightLine, SameBranches, Directed;
    var c := PushNew(b, stack, i).b;
    PushNewAdvances(b, stack, i);
    PushJoins(b, stack, i);
    JoinKeepsTwoWay(b, c, i);
    OperandsOnly(b, stack, i);
    PushGood(b, c, stack, i);
    IsStep(b, stack, c, stack + [i], i);
  }

  lemma OneJoins(b: seq<Brch>, stack: seq<nat>, i: nat)
    requires i < |b| && Linked(b, stack, i) && stack != [] && (IsUnary(b[i].typ) || InsideSketch(b[i].typ))
    requires if InsideSketch(b[i].typ) then OpensSketch(b[Top(stack)].typ) else IsOperand(b[Top(stack)].typ)
    ensures JoinsWell(b, TakeOne(b, stack, i).b, i)
  {
    assert Top(stack) in stack;
  }

  lemma OneSteps(b: seq<Brch>, stack: seq<nat>, i: nat)
    requires i < |b| && InOrder(b, stack, i) && stack != [] && (IsUnary(b[i].typ) || InsideSketch(b[i].typ))
    requires if InsideSketch(b[i].typ) then OpensSketch(b[Top(stack)].typ) else IsOperand(b[Top(stack)].typ)
    ensures Steps(b, stack, TakeOne(b, stack, i), i)
  {
    hide TwoWay, GoodStack, Joined, StepsTo, StraightLine, SameBranches, Directed;
    var c := TakeOne(b, stack, i).b;
    TakeOneAdvances(b, stack, i);
    OneJoins(b, stack, i);
    JoinKeepsTwoWay(b, c, i);
    OperandsBelow(b, stack, i);
    PushGood(b, c, Pop(stack), i);
    IsStep(b, stack, c, Pop(stack) + [i], i);
  }

  lemma TwoJoin(b: seq<Brch>, stack: seq<nat>, i: nat)
    requires i < |b| && Linked(b, stack, i) && |stack| >= 2 && b[i].Class() == Boolean && AllOperands(b, stack)
    ensures JoinsWell(b, TakeTwo(b, stack, i).b, i)
  {
    assert Top(stack) in stack && Top(Pop(stack)) in stack;
    assert Top(Pop(stack)) < Top(stack);
  }

  lemma TwoSteps(b: seq<Brch>, stack: seq<nat>, i: nat)
    requires i < |b| && InOrder(b, stack, i) && |stack| >= 2 && b[i].Class() == Boolean
    ensures Steps(b, stack, TakeTwo(b, stack, i), i)
  {
    hide TwoWay, GoodStack, Joined, StepsTo, StraightLine, SameBranches, Directed;
    var c := TakeTwo(b, stack, i).b;
    TakeTwoAdvances(b, stack, i);
    OperandsOnly(b, stack, i);
    TwoJoin(b, stack, i);
    JoinKeepsTwoWay(b, c, i);
    PushGood(b, c, Pop(Pop(stack)), i);
    IsStep(b, stack, c, Pop(Pop(stack)) + [i], i);
  }

  /** Inside a sketch, the Branch just before is the top operand. */
  lemma SketchOnTop(b: seq<Brch>, stack: seq<nat>, i: nat)
    requires i < |b| && InOrder(b, stack, i) && InsideSketch(b[i].typ) && LinkSketch(b, stack, i).Good?
    ensures OpensSketch(b[i - 1].typ) && stack != [] && Top(stack) == i - 1
  {
    hide Linked, TwoWay, GoodStack;
    SketchBefore(b, i - 1);
  }

  lemma SketchIsTakeOne(b: seq<Brch>, stack: seq<nat>, i: nat)
    requires 0 < i < |b| && UpTo(stack, i) && LinkSketch(b, stack, i).Good? && stack != [] && Top(stack) == i - 1
    ensures LinkSketch(b, stack, i) == TakeOne(b, stack, i)
  {
    assert Without(stack, Top(stack)) == Pop(stack);
  }

  lemma SketchSteps(b: seq<Brch>, stack: seq<nat>, i: nat)
    requires i < |b| && InOrder(b, stack, i) && InsideSketch(b[i].typ)
    ensures Steps(b, stack, LinkSketch(b, stack, i), i)
  {
    if LinkSketch(b, stack, i).Good? {
      SketchOnTop(b, stack, i);
      SketchIsTakeOne(b, stack, i);
      OneSteps(b, stack, i);
    }
  }

  lemma SetSteps(b: seq<Brch>, stack: seq<nat>, i: nat)
    requires i < |b| && InOrder(b, stack, i) && b[i].typ.Set?
    ensures Steps(b, stack, Good(b, stack), i)
  {
    OperandsOnly(b, stack, i);
    JoinKeepsTwoWay(b, b, i);
  }

  lemma UnarySteps(b: seq<Brch>, stack: seq<nat>, i: nat)
    requires i < |b| && InOrder(b, stack, i) && IsUnary(b[i].typ)
    ensures Steps(b, stack, LinkOne(b, stack, i), i)
  {
    hide TakeOne, StepsTo, LinkLoft;
    OperandsOnly(b, stack, i);
    if stack != [] {
      assert IsOperand(b[Top(stack)].typ);
      OneSteps(b, stack, i);
    }
  }

  lemma LinkOneSteps(b: seq<Brch>, stack: seq<nat>, i: nat)
    requires 0 < i < |b| && InOrder(b, stack, i)
    ensures Steps(b, stack, LinkOne(b, stack, i), i)
  {
    hide TakeOne, TakeTwo, PushNew, StepsTo, LinkLoft, LinkSketch, LinkSolver, LinkMacEnd, Linked, TwoWay, GoodStack;
    if InsideSketch(b[i].typ) {
      SketchSteps(b, stack, i);
    } else if IsUnary(b[i].typ) {
      UnarySteps(b, stack, i);
    } else if b[i].Class() == Boolean {
      if |stack| >= 2 { TwoSteps(b, stack, i); }
    } else if b[i].typ.Set? {
      SetSteps(b, stack, i);
    } else {
      PushSteps(b, stack, i);
    }
  }

  lemma StraightStart(b: seq<Brch>)
    requires StraightLine(b)
    ensures InOrder(Unlinked(b), [], 1) && SameBranches(b, Unlinked(b))
  {
  }

  lemma SameBranchesChain(a: seq<Brch>, b: seq<Brch>, c: seq<Brch>)
    requires SameBranches(a, b) && SameBranches(b, c)
    ensures SameBranches(a, c)
  {
  }

  lemma {:induction false} LinkAllSteps(b: seq<Brch>, n: nat)
    requires n < |b| && StraightLine(b)
    ensures var r := LinkAll(b, n);
            r.Good? ==> SameBranches(b, r.b) && InOrder(r.b, r.stack, n + 1)
  {
    hide LinkOne, InOrder, StraightLine, Unlinked, SameBranches;
    StraightStart(b);
    if n > 0 {
      LinkAllSteps(b, n - 1);
      var s := LinkAll(b, n - 1);
      if s.Good? {
        LinkOneSteps(s.b, s.stack, n);
        var r := LinkOne(s.b, s.stack, n);
        if r.Good? { SameBranchesChain(b, s.b, r.b); }
      }
    }
  }
}

/**
 Building a checked model: what the Branches take from the Body stack and leave on it,
 against what linking took their operands to be, whatever is suppressed.

 Lofts, marks, macros, patterns and solvers are left out.
*/
module BodyStack {
  import opened ActivitySpec
  import opened Basics
  import opened Branches
  import opened LinkSpec
  import opened LinkStack
  import Operands

  // ----- the class of models -----

  predicate StraightType(t: Type) {
    !(t.Loft? || t.Mark? || t.MacBeg? || t.MacEnd? || t.Recall? || t.PatBeg? || t.PatEnd? || ClassOf(t) == Solver)
  }

  predicate Straight(b: seq<Brch>) {
    |b| > 0 && forall i :: 0 < i < |b| ==> StraightType(b[i].typ)
  }

  /** The sketch is still open after this Branch. */
  predicate OpensSketch(t: Type) { t.SkBeg? || t.LinSeg? || t.CirArc? || t.Spline? }

  /** The Branch belongs to a sketch that is already open. */
  predicate InsideSketch(t: Type) { t.LinSeg? || t.CirArc? || t.Spline? || t.SkEnd? }

  /** The Branch takes one operand. */
  predicate IsUnary(t: Type) { ClassOf(t) in {Grown, Applied, Transform} || t.Dump? }

  /** A Branch that can be an operand of something other than a sketch Branch. */
  predicate IsOperand(t: Type) { t.SkEnd? || t.Dump? || ClassOf(t) in {Primitive, Grown, Applied, Boolean, Transform} }

  // ----- run time -----

  /** What executing Branch `i` does to the Body stack; a Body is named after the Branch that made it. */
  function Execute(b: seq<Brch>, st: seq<nat>, i: nat): Option<seq<nat>>
    requires i < |b|
  {
    if b[i].actv != Active then Some(st)
    else
      match b[i].Class()
      case Primitive => Some(st + [i])
      case Grown | Applied | Transform => if |st| < 1 then None else Some(Pop(st) + [i])
      case Boolean => if |st| < 2 then None else Some(Pop(Pop(st)) + [i])
      case Sketch => Some(if b[i].typ.SkEnd? then st + [i] else st)
      case _ => if b[i].typ.Dump? && |st| < 1 then None else Some(st)
  }

  /** The Bodies that Branch `i` takes its operands to be, the left one first. */
  function Taken(b: seq<Brch>, st: seq<nat>, i: nat): seq<seq<nat>>
    requires i < |b|
  {
    if b[i].actv != Active then []
    else if IsUnary(b[i].typ) && |st| >= 1 then [[Top(st)]]
    else if b[i].Class() == Boolean && |st| >= 2 then [[Top(Pop(st))], [Top(st)]]
    else []
  }

  /** What an ACTIVE Branch does to the Body stack, by its type: it puts a Body there, takes
      one off first or two, or leaves the stack alone. */
  lemma ExecuteByType(b: seq<Brch>, st: seq<nat>, i: nat)
    requires i < |b| && b[i].actv == Active
    ensures var t := b[i].typ;
            && (Operands.Makes(t) || t.SkEnd? ==> Execute(b, st, i) == Some(st + [i]))
            && (Operands.Grows(t) || Operands.Applies(t) || Operands.Transforms(t) ==>
                  Execute(b, st, i) == if |st| < 1 then None else Some(Pop(st) + [i]))
            && (Operands.Joins(t) ==> Execute(b, st, i) == if |st| < 2 then None else Some(Pop(Pop(st)) + [i]))
            && (t.Dump? ==> Execute(b, st, i) == if |st| < 1 then None else Some(st))
            && (t in {SkBeg, LinSeg, CirArc, Spline, SolBeg, SolCon, SolEnd} || Operands.StandsBy(t) || t.MacEnd? || t.Recall? ==>
                  Execute(b, st, i) == Some(st))
  {
  }

  /** What an ACTIVE Branch takes for its operands, by its type: the top Body, or the two
      topmost with the older one for the left operand. */
  lemma TakenByType(b: seq<Brch>, st: seq<nat>, i: nat)
    requires i < |b| && b[i].actv == Active
    ensures var t := b[i].typ; var n := |st|;
            && (Operands.Grows(t) || Operands.Applies(t) || Operands.Transforms(t) || t.Dump? ==>
                  n >= 1 ==> Taken(b, st, i) == [[st[n - 1]]])
            && (Operands.Joins(t) ==> n >= 2 ==> Taken(b, st, i) == [[st[n - 2]], [st[n - 1]]])
            && (Operands.Makes(t) || Operands.Sketches(t) || Operands.StandsBy(t) ==> Taken(b, st, i) == [])
  {
  }

  /** Models of these types are followed, in any order. */
  lemma StraightTypes(t: Type)
    ensures StraightType(t) <==>
            || Operands.Makes(t) || Operands.Grows(t) || Operands.Applies(t) || Operands.Joins(t) || Operands.Transforms(t)
            || Operands.Sketches(t) || t in {SkBeg, Set, Dump}
  {
  }

  /** The Body stack after the first `n` Branches, unless it was too short for one of them. */
  function Build(b: seq<Brch>, n: nat): Option<seq<nat>>
    requires n < |b|
  {
    if n == 0 then Some([])
    else
      match Build(b, n - 1)
      case None => None
      case Some(st) => Execute(b, st, n)
  }

  // ----- what stands for an operand at run time -----

  predicate EarlierAt(c: seq<Brch>, i: nat)
    requires i < |c|
  {
    && (IsUnary(c[i].typ) ==> 0 < c[i].ileft < i)
    && (c[i].Class() == Boolean ==> 0 < c[i].ileft < i && 0 < c[i].irite < i)
    && (InsideSketch(c[i].typ) ==> 0 < c[i].ileft == i - 1)
  }

  /** Every Branch comes after its parents. */
  predicate Earlier(c: seq<Brch>) {
    forall i: nat {:trigger EarlierAt(c, i)} :: 0 < i < |c| ==> EarlierAt(c, i)
  }

  /** The Bodies that stand for Branch `i` on the run-time stack: its own, those of its
      operands if it is skipped, none if it is part of an open sketch. */
  function Rep(c: seq<Brch>, i: nat): seq<nat>
    requires Earlier(c) && 0 < i < |c|
    decreases i
  {
    assert EarlierAt(c, i);
    if !IsOperand(c[i].typ) then []
    else if c[i].actv == Active && !c[i].typ.Dump? then [i]
    else if IsUnary(c[i].typ) then Rep(c, c[i].ileft)
    else if c[i].Class() == Boolean then Rep(c, c[i].ileft) + Rep(c, c[i].irite)
    else []
  }

  /** The Bodies that stand for a stack of operands. */
  function Reps(c: seq<Brch>, stack: seq<nat>): seq<nat>
    requires Earlier(c) && UpTo(stack, |c|)
  {
    if stack == [] then [] else Reps(c, Pop(stack)) + Rep(c, Top(stack))
  }

  /** What stands for the operands of Branch `i`. */
  function Wanted(c: seq<Brch>, i: nat): seq<seq<nat>>
    requires Earlier(c) && 0 < i < |c|
  {
    assert EarlierAt(c, i);
    if c[i].actv != Active then []
    else if IsUnary(c[i].typ) then [Rep(c, c[i].ileft)]
    else if c[i].Class() == Boolean then [Rep(c, c[i].ileft), Rep(c, c[i].irite)]
    else []
  }

  /** An ACTIVE Branch has one Body for each of its operands, and a sketch goes on after
      nothing that has a Body. */
  predicate ServedAt(c: seq<Brch>, i: nat)
    requires Earlier(c) && 0 < i < |c|
  {
    assert EarlierAt(c, i);
    if InsideSketch(c[i].typ) then Rep(c, i - 1) == []
    else forall x :: x in Wanted(c, i) ==> |x| == 1
  }

  predicate Served(c: seq<Brch>)
    requires Earlier(c)
  {
    forall i: nat {:trigger ServedAt(c, i)} :: 0 < i < |c| ==> ServedAt(c, i)
  }

  // ----- operands while linking -----

  /** How linking Branch `i` changes the stack of operands. */
  predicate Moves(c: seq<Brch>, before: seq<nat>, after: seq<nat>, i: nat)
    requires i < |c|
  {
    if InsideSketch(c[i].typ) then
      i > 1 && c[i].ileft == i - 1 && after == Without(before, i - 1) + [i]
    else if IsUnary(c[i].typ) then
      before != [] && c[i].ileft == Top(before) && after == Pop(before) + [i]
    else if c[i].Class() == Boolean then
      |before| >= 2 && c[i].irite == Top(before) && c[i].ileft == Top(Pop(before)) && after == Pop(Pop(before)) + [i]
    else if c[i].typ.Set? then after == before
    else after == before + [i]
  }

  /** The parents of a Branch are settled once it has been linked. */
  ghost predicate SameParents(a: seq<Brch>, b: seq<Brch>, n: nat) {
    |a| == |b| && forall j :: 0 < j < n && j < |a| ==>
                    a[j].typ == b[j].typ && a[j].ileft == b[j].ileft && a[j].irite == b[j].irite
  }

  lemma PushMoves(b: seq<Brch>, stack: seq<nat>, i: nat)
    requires 0 < i < |b| && UpTo(stack, i)
    ensures SameParents(b, PushNew(b, stack, i).b, i)
    ensures b[i].Class() == Primitive || b[i].typ.SkBeg? ==> Moves(PushNew(b, stack, i).b, stack, PushNew(b, stack, i).stack, i)
  {
  }

  lemma TakeMoves(b: seq<Brch>, stack: seq<nat>, i: nat)
    requires 0 < i < |b| && UpTo(stack, i) && stack != []
    ensures SameParents(b, TakeOne(b, stack, i).b, i)
    ensures IsUnary(b[i].typ) ==> Moves(TakeOne(b, stack, i).b, stack, TakeOne(b, stack, i).stack, i)
  {
  }

  lemma TakeBothMoves(b: seq<Brch>, stack: seq<nat>, i: nat)
    requires 0 < i < |b| && UpTo(stack, i) && |stack| >= 2
    ensures SameParents(b, TakeTwo(b, stack, i).b, i)
    ensures b[i].Class() == Boolean ==> Moves(TakeTwo(b, stack, i).b, stack, TakeTwo(b, stack, i).stack, i)
  {
  }

  lemma SketchMoves(b: seq<Brch>, stack: seq<nat>, i: nat)
    requires 0 < i < |b| && UpTo(stack, i) && InsideSketch(b[i].typ)
    ensures var r := LinkSketch(b, stack, i); r.Good? ==> SameParents(b, r.b, i) && Moves(r.b, stack, r.stack, i)
  {
    hide Without, Cut;
  }

  lemma LinkOneMoves(b: seq<Brch>, stack: seq<nat>, i: nat)
    requires 0 < i < |b| && UpTo(stack, i) && StraightType(b[i].typ)
    ensures var r := LinkOne(b, stack, i); r.Good? ==> SameParents(b, r.b, i) && Moves(r.b, stack, r.stack, i)
  {
    hide PushNew, TakeOne, TakeTwo, LinkSketch, LinkLoft, LinkSolver, LinkMacEnd, SameParents, Moves;
    PushMoves(b, stack, i);
    if stack != [] { TakeMoves(b, stack, i); }
    if |stack| >= 2 { TakeBothMoves(b, stack, i); }
    if InsideSketch(b[i].typ) { SketchMoves(b, stack, i); }
    if b[i].typ.Set? { SetMoves(b, stack, i); }
  }

  lemma SetMoves(b: seq<Brch>, stack: seq<nat>, i: nat)
    requires i < |b| && b[i].typ.Set?
    ensures SameParents(b, b, i) && Moves(b, stack, stack, i)
  {
  }

  lemma SameMoves(a: seq<Brch>, b: seq<Brch>, n: nat, before: seq<nat>, after: seq<nat>, k: nat)
    requires SameParents(a, b, n) && 0 < k < n && k < |a|
    ensures Moves(a, before, after, k) <==> Moves(b, before, after, k)
  {
    hide Without;
  }

  /** Every step of linking, seen from the links of the whole model. */
  lemma {:induction false} LinkAllMoves(b: seq<Brch>, k: nat, n: nat)
    requires Straight(b) && 0 < k <= n < |b| && LinkAll(b, n).Good?
    ensures LinkAll(b, k).Good? && LinkAll(b, k - 1).Good?
    ensures Moves(LinkAll(b, n).b, LinkAll(b, k - 1).stack, LinkAll(b, k).stack, k)
    decreases n
  {
    hide LinkOne, Moves, SameParents, Linked;
    LinkAllAdvances(b, n - 1);
    var s := LinkAll(b, n - 1);
    LastIsStraight(b, s, n);
    LinkOneMoves(s.b, s.stack, n);
    if k < n {
      LinkAllMoves(b, k, n - 1);
      SameMoves(s.b, LinkAll(b, n).b, n, LinkAll(b, k - 1).stack, LinkAll(b, k).stack, k);
    }
  }

  lemma LastIsStraight(b: seq<Brch>, s: Links, n: nat)
    requires Straight(b) && 0 < n < |b| && s.Good? && SameBranches(b, s.b)
    ensures StraightType(s.b[n].typ)
  {
  }

  // ----- one Branch at run time -----

  lemma RepsPop(c: seq<Brch>, stack: seq<nat>, i: nat)
    requires Earlier(c) && UpTo(stack, |c|) && 0 < i < |c|
    ensures UpTo(stack + [i], |c|) && Reps(c, stack + [i]) == Reps(c, stack) + Rep(c, i)
  {
    hide Rep;
    assert Pop(stack + [i]) == stack;
  }

  lemma UpToLater(stack: seq<nat>, i: int, n: int)
    requires UpTo(stack, i) && i <= n
    ensures UpTo(stack, n)
  {
  }

  /** Branch `i` is about to be executed. */
  ghost predicate AboutTo(c: seq<Brch>, before: seq<nat>, after: seq<nat>, i: nat) {
    && Earlier(c) && 0 < i < |c| && UpTo(before, i) && UpTo(after, i + 1) && UpTo(before, |c|) && UpTo(after, |c|)
    && Moves(c, before, after, i)
    && (i > 1 ==> if c[i - 1].typ.Set? then Without(before, i - 1) == before else before != [] && Top(before) == i - 1)
  }

  /** What Branch `i` finds on the Body stack is what stands for its operands, and what it
      leaves is what stands for it. */
  predicate InStep(c: seq<Brch>, before: seq<nat>, after: seq<nat>, i: nat)
    requires Earlier(c) && 0 < i < |c| && UpTo(before, |c|) && UpTo(after, |c|)
  {
    Execute(c, Reps(c, before), i) == Some(Reps(c, after)) && Taken(c, Reps(c, before), i) == Wanted(c, i)
  }

  lemma PushInStep(c: seq<Brch>, before: seq<nat>, after: seq<nat>, i: nat)
    requires AboutTo(c, before, after, i) && (c[i].Class() == Primitive || c[i].typ.SkBeg?)
    ensures InStep(c, before, after, i) && ServedAt(c, i)
  {
    hide Earlier, UpTo, Reps;
    RepsPop(c, before, i);
    assert Reps(c, before) + [] == Reps(c, before);
  }

  lemma OthersInStep(c: seq<Brch>, before: seq<nat>, after: seq<nat>, i: nat)
    requires AboutTo(c, before, after, i) && StraightType(c[i].typ)
    requires !InsideSketch(c[i].typ) && !IsUnary(c[i].typ) && c[i].Class() != Boolean
    ensures InStep(c, before, after, i) && ServedAt(c, i)
  {
    hide Earlier, UpTo, Reps, Execute, InStep, ServedAt;
    if c[i].typ.Set? {
      SetInStep(c, before, after, i);
    } else {
      PushInStep(c, before, after, i);
    }
  }

  lemma SetInStep(c: seq<Brch>, before: seq<nat>, after: seq<nat>, i: nat)
    requires AboutTo(c, before, after, i) && c[i].typ.Set?
    ensures InStep(c, before, after, i) && ServedAt(c, i)
  {
    hide Earlier, UpTo, Reps;
  }

  /** A sketch that goes on takes nothing from the Body stack. */
  lemma SketchInStep(c: seq<Brch>, before: seq<nat>, after: seq<nat>, i: nat)
    requires AboutTo(c, before, after, i) && InsideSketch(c[i].typ)
    ensures InStep(c, before, after, i) <==> ServedAt(c, i)
  {
    hide UpTo, Reps, Earlier;
    SketchTakesLast(c, before, after, i);
    var rest := if c[i - 1].typ.Set? then before else Pop(before);
    var st := Reps(c, rest);
    assert st + [] == st;
    assert Rep(c, i) == if c[i].typ.SkEnd? && c[i].actv == Active then [i] else [];
  }

  lemma SketchTakesLast(c: seq<Brch>, before: seq<nat>, after: seq<nat>, i: nat)
    requires AboutTo(c, before, after, i) && InsideSketch(c[i].typ)
    ensures i > 1
    ensures var rest := if c[i - 1].typ.Set? then before else Pop(before);
            && UpTo(rest, |c|) && Reps(c, before) == Reps(c, rest) + Rep(c, i - 1)
            && Reps(c, after) == Reps(c, rest) + Rep(c, i)
  {
    hide Rep, Earlier;
    if c[i - 1].typ.Set? {
      SetHasNone(c, i - 1);
      assert Reps(c, before) + [] == Reps(c, before);
      RepsPop(c, before, i);
    } else {
      WithoutTop(before);
      RepsPop(c, Pop(before), i);
    }
  }

  lemma SetHasNone(c: seq<Brch>, i: nat)
    requires Earlier(c) && 0 < i < |c| && c[i].typ.Set?
    ensures Rep(c, i) == []
  {
  }

  lemma WithoutTop(stack: seq<nat>)
    requires stack != []
    ensures Without(stack, Top(stack)) == Pop(stack)
  {
  }

  lemma UnaryParts(c: seq<Brch>, before: seq<nat>, after: seq<nat>, i: nat)
    requires AboutTo(c, before, after, i) && IsUnary(c[i].typ)
    ensures before != [] && UpTo(Pop(before), |c|) && 0 < c[i].ileft < |c|
    ensures Reps(c, before) == Reps(c, Pop(before)) + Rep(c, c[i].ileft)
    ensures Reps(c, after) == Reps(c, Pop(before)) + Rep(c, i)
  {
    hide Rep, Earlier;
    RepsPop(c, Pop(before), i);
  }

  /** What serving a Branch with one operand comes to, and what stands for it. */
  lemma UnaryServed(c: seq<Brch>, i: nat)
    requires Earlier(c) && 0 < i < |c| && IsUnary(c[i].typ)
    ensures 0 < c[i].ileft < |c|
    ensures var x := Rep(c, c[i].ileft);
            && (ServedAt(c, i) <==> c[i].actv != Active || |x| == 1)
            && Rep(c, i) == (if c[i].actv == Active && !c[i].typ.Dump? then [i] else x)
            && Wanted(c, i) == (if c[i].actv == Active then [x] else [])
  {
    assert EarlierAt(c, i);
    hide Earlier;
    var x := Rep(c, c[i].ileft);
    assert x in [x];
  }

  lemma UnaryInStep(c: seq<Brch>, before: seq<nat>, after: seq<nat>, i: nat)
    requires AboutTo(c, before, after, i) && IsUnary(c[i].typ)
    ensures InStep(c, before, after, i) <==> ServedAt(c, i)
  {
    hide Reps, UpTo, Without, Rep, ServedAt, Wanted, Earlier, Moves;
    UnaryServed(c, i);
    UnaryParts(c, before, after, i);
    TakesOne(Reps(c, Pop(before)), Rep(c, c[i].ileft));
  }

  lemma TakesOne(rest: seq<nat>, x: seq<nat>)
    ensures |x| == 1 ==> rest + x != [] && Pop(rest + x) == rest && [Top(rest + x)] == x
    ensures rest + x != [] ==> ([[Top(rest + x)]] == [x] <==> |x| == 1)
  {
  }

  lemma BooleanParts(c: seq<Brch>, before: seq<nat>, after: seq<nat>, i: nat)
    requires AboutTo(c, before, after, i) && c[i].Class() == Boolean
    ensures |before| >= 2 && UpTo(Pop(Pop(before)), |c|) && 0 < c[i].ileft < |c| && 0 < c[i].irite < |c|
    ensures Reps(c, before) == Reps(c, Pop(Pop(before))) + Rep(c, c[i].ileft) + Rep(c, c[i].irite)
    ensures Reps(c, after) == Reps(c, Pop(Pop(before))) + Rep(c, i)
  {
    hide Rep, Earlier;
    RepsPop(c, Pop(Pop(before)), i);
  }

  /** What serving a BOOLEAN comes to, and what stands for it. */
  lemma BooleanServed(c: seq<Brch>, i: nat)
    requires Earlier(c) && 0 < i < |c| && c[i].Class() == Boolean
    ensures 0 < c[i].ileft < |c| && 0 < c[i].irite < |c|
    ensures var x, y := Rep(c, c[i].ileft), Rep(c, c[i].irite);
            && (ServedAt(c, i) <==> c[i].actv != Active || |x| == |y| == 1)
            && Rep(c, i) == (if c[i].actv == Active then [i] else x + y)
            && Wanted(c, i) == (if c[i].actv == Active then [x, y] else [])
  {
    assert EarlierAt(c, i);
    hide Earlier;
    var x, y := Rep(c, c[i].ileft), Rep(c, c[i].irite);
    assert x in [x, y] && y in [x, y];
  }

  lemma BooleanExecuted(c: seq<Brch>, st: seq<nat>, i: nat)
    requires i < |c| && c[i].Class() == Boolean
    ensures c[i].actv != Active ==> Execute(c, st, i) == Some(st) && Taken(c, st, i) == []
    ensures c[i].actv == Active && |st| < 2 ==> Execute(c, st, i) == None
    ensures c[i].actv == Active && |st| >= 2 ==>
              Execute(c, st, i) == Some(Pop(Pop(st)) + [i]) && Taken(c, st, i) == [[Top(Pop(st))], [Top(st)]]
  {
  }

  lemma BooleanInStep(c: seq<Brch>, before: seq<nat>, after: seq<nat>, i: nat)
    requires AboutTo(c, before, after, i) && c[i].Class() == Boolean
    ensures InStep(c, before, after, i) <==> ServedAt(c, i)
  {
    hide Reps, UpTo, Without, Rep, ServedAt, Wanted, Earlier, Moves, Execute, Taken, Top;
    BooleanServed(c, i);
    BooleanParts(c, before, after, i);
    BooleanExecuted(c, Reps(c, before), i);
    TakesTwo(Reps(c, Pop(Pop(before))), Rep(c, c[i].ileft), Rep(c, c[i].irite));
  }

  lemma TakesTwo(rest: seq<nat>, x: seq<nat>, y: seq<nat>)
    ensures rest + x + y == rest + (x + y)
    ensures |x| == |y| == 1 ==> |rest + x + y| >= 2 && Pop(Pop(rest + x + y)) == rest
    ensures |rest + x + y| >= 2 ==>
              ([[Top(Pop(rest + x + y))], [Top(rest + x + y)]] == [x, y] <==> |x| == |y| == 1)
  {
    var all := rest + x + y;
    if |x| == 1 && |y| == 1 {
      assert x == [Top(Pop(all))] && y == [Top(all)];
    }
    if |all| >= 2 && [[Top(Pop(all))], [Top(all)]] == [x, y] {
      assert x == [x, y][0] && y == [x, y][1];
    }
  }

  /** A Branch is in step exactly when it is served. */
  lemma InStepIffServed(c: seq<Brch>, before: seq<nat>, after: seq<nat>, i: nat)
    requires AboutTo(c, before, after, i) && StraightType(c[i].typ)
    ensures InStep(c, before, after, i) <==> ServedAt(c, i)
  {
    hide InStep, ServedAt, Moves, Earlier, UpTo;
    if InsideSketch(c[i].typ) {
      SketchInStep(c, before, after, i);
    } else if IsUnary(c[i].typ) {
      UnaryInStep(c, before, after, i);
    } else if c[i].Class() == Boolean {
      BooleanInStep(c, before, after, i);
    } else {
      OthersInStep(c, before, after, i);
    }
  }

  // ----- whole builds -----

  /** The stack of operands that linking keeps, after `k` Branches. */
  function OperandsAt(b: seq<Brch>, k: nat): (stack: seq<nat>)
    requires Passes(b) && k < |b|
    ensures UpTo(stack, k + 1)
  {
    hide LinkOne;
    PassesEarlier(b, k, |b| - 1);
    LinkAll(b, k).stack
  }

  lemma {:induction false} PassesEarlier(b: seq<Brch>, k: nat, n: nat)
    requires k <= n < |b| && LinkAll(b, n).Good?
    ensures LinkAll(b, k).Good?
    decreases n
  {
    hide LinkOne;
    if k < n { PassesEarlier(b, k, n - 1); }
  }

  lemma CheckedMoves(b: seq<Brch>, k: nat)
    requires Passes(b) && Straight(b) && 0 < k < |b|
    ensures |Checked(b)| == |b| && StraightType(Checked(b)[k].typ)
    ensures Moves(Checked(b), OperandsAt(b, k - 1), OperandsAt(b, k), k)
  {
    hide Moves, LinkOne, Outcome, Directed;
    var l := LinksOf(b);
    LinkAllMoves(b, k, |b| - 1);
    SameMoves(l, Settle(l), |b|, OperandsAt(b, k - 1), OperandsAt(b, k), k);
  }

  lemma ParentsOnStack(c: seq<Brch>, before: seq<nat>, after: seq<nat>, k: nat)
    requires 0 < k < |c| && UpTo(before, k) && Moves(c, before, after, k)
    ensures EarlierAt(c, k)
  {
    hide Without;
  }

  lemma CheckedIsEarlier(b: seq<Brch>)
    requires Passes(b) && Straight(b)
    ensures |Checked(b)| == |b| > 0 && Earlier(Checked(b))
  {
    hide Moves, LinkAll, Checked, EarlierAt;
    CheckedSize(b);
    forall k: nat | 0 < k < |b| ensures EarlierAt(Checked(b), k) {
      CheckedMoves(b, k);
      ParentsOnStack(Checked(b), OperandsAt(b, k - 1), OperandsAt(b, k), k);
    }
  }

  lemma CheckedSize(b: seq<Brch>)
    requires Passes(b)
    ensures |Checked(b)| == |b| > 0
  {
  }

  /** After `k` Branches the Body stack is just what stands for the operands that linking
      has there, and the last of these Branches took just what stands for its own. */
  ghost predicate FollowsAt(b: seq<Brch>, k: nat)
    requires Passes(b) && Straight(b) && k < |b|
  {
    CheckedIsEarlier(b);
    UpToLater(OperandsAt(b, k), k + 1, |b|);
    var c := Checked(b);
    && Build(c, k) == Some(Reps(c, OperandsAt(b, k)))
    && (k > 0 && Build(c, k - 1).Some? ==> Taken(c, Build(c, k - 1).value, k) == Wanted(c, k))
  }

  /** The whole build follows the links. */
  ghost predicate Follows(b: seq<Brch>)
    requires Passes(b) && Straight(b)
  {
    forall k: nat {:trigger FollowsAt(b, k)} :: k < |b| ==> FollowsAt(b, k)
  }

  /** Every ACTIVE Branch has a Body for each operand. */
  ghost predicate AllServed(b: seq<Brch>)
    requires Passes(b) && Straight(b)
  {
    CheckedIsEarlier(b);
    Served(Checked(b))
  }

  /** A Branch that was just linked is the top operand, unless it cannot be one. */
  lemma LastOnTop(c: seq<Brch>, before: seq<nat>, after: seq<nat>, k: nat)
    requires 0 < k < |c| && UpTo(before, k) && Moves(c, before, after, k)
    ensures if c[k].typ.Set? then Without(after, k) == after else after != [] && Top(after) == k
  {
    if c[k].typ.Set? { NothingToTake(after, k); } else { hide Without; }
  }

  lemma NothingToTake(stack: seq<nat>, j: nat)
    requires UpTo(stack, j)
    ensures Without(stack, j) == stack
  {
  }

  lemma NextIsAbout(b: seq<Brch>, k: nat)
    requires Passes(b) && Straight(b) && 0 < k < |b|
    ensures AboutTo(Checked(b), OperandsAt(b, k - 1), OperandsAt(b, k), k) && StraightType(Checked(b)[k].typ)
  {
    hide Moves, Checked, Passes, OperandsAt, Earlier, Straight, Without;
    CheckedIsEarlier(b);
    CheckedMoves(b, k);
    UpToLater(OperandsAt(b, k - 1), k, |b|);
    UpToLater(OperandsAt(b, k), k + 1, |b|);
    if k > 1 {
      CheckedMoves(b, k - 1);
      LastOnTop(Checked(b), OperandsAt(b, k - 2), OperandsAt(b, k - 1), k - 1);
    }
  }

  /** As long as the build has followed the links, it goes on doing so exactly when the
      next Branch is served. */
  lemma FollowsOn(b: seq<Brch>, k: nat)
    requires Passes(b) && Straight(b) && 0 < k < |b| && FollowsAt(b, k - 1)
    ensures Earlier(Checked(b)) && |Checked(b)| == |b|
    ensures FollowsAt(b, k) <==> ServedAt(Checked(b), k)
  {
    hide Checked, Passes, OperandsAt, Earlier, Straight, Moves, Execute, Taken, Reps, Wanted, ServedAt, UpTo, Without;
    CheckedIsEarlier(b);
    NextIsAbout(b, k);
    InStepIffServed(Checked(b), OperandsAt(b, k - 1), OperandsAt(b, k), k);
  }

  lemma FollowsAtFirst(b: seq<Brch>)
    requires Passes(b) && Straight(b)
    ensures FollowsAt(b, 0)
  {
    hide LinkOne, Checked;
    assert OperandsAt(b, 0) == [];
  }

  lemma {:induction false} FollowsIfServed(b: seq<Brch>, k: nat)
    requires Passes(b) && Straight(b) && AllServed(b) && k < |b|
    ensures FollowsAt(b, k)
  {
    hide FollowsAt, Checked, ServedAt, Earlier;
    if k == 0 {
      FollowsAtFirst(b);
    } else {
      FollowsIfServed(b, k - 1);
      FollowsOn(b, k);
    }
  }

  /** Whatever is suppressed, and wherever sketches are interrupted: the build follows the
      links all the way if and only if every ACTIVE Branch has a Body for each operand. */
  lemma FollowsIffServed(b: seq<Brch>)
    requires Passes(b) && Straight(b)
    ensures Follows(b) <==> AllServed(b)
  {
    hide FollowsAt, Checked, ServedAt, Earlier;
    CheckedIsEarlier(b);
    if AllServed(b) {
      forall k: nat | k < |b| ensures FollowsAt(b, k) { FollowsIfServed(b, k); }
    }
    if Follows(b) {
      forall k: nat | 0 < k < |b| ensures ServedAt(Checked(b), k) {
        assert FollowsAt(b, k - 1) && FollowsAt(b, k);
        FollowsOn(b, k);
      }
    }
  }

  /** The build follows the links up to the first Branch that is not served, and goes astray
      there: the Body stack is too short, or the Branch takes something that does not stand
      for its operands, or leaves something else. */
  lemma {:induction false} ServedUntil(b: seq<Brch>, k: nat)
    requires Passes(b) && Straight(b) && k < |b| && Earlier(Checked(b)) && |Checked(b)| == |b|
    requires forall j: nat {:trigger ServedAt(Checked(b), j)} :: 0 < j < k ==> ServedAt(Checked(b), j)
    ensures forall j: nat {:trigger FollowsAt(b, j)} :: j < k ==> FollowsAt(b, j)
    ensures k > 0 ==> (FollowsAt(b, k) <==> ServedAt(Checked(b), k))
  {
    hide FollowsAt, Checked, ServedAt, Earlier, Passes, Straight;
    if k > 0 {
      ServedUntil(b, k - 1);
      if k == 1 { FollowsAtFirst(b); }
      FollowsOn(b, k);
    }
  }

  // ----- nothing suppressed -----

  /** Parents that a Branch can make something of: no part of an open sketch, except for
      the Branches inside it, which come after no other. */
  predicate FittingAt(c: seq<Brch>, i: nat)
    requires Earlier(c) && 0 < i < |c|
  {
    assert EarlierAt(c, i);
    && (InsideSketch(c[i].typ) ==> !IsOperand(c[i - 1].typ))
    && (IsUnary(c[i].typ) ==> IsOperand(c[c[i].ileft].typ))
    && (c[i].Class() == Boolean ==> IsOperand(c[c[i].ileft].typ) && IsOperand(c[c[i].irite].typ))
  }

  predicate AllActive(c: seq<Brch>) {
    forall i :: 0 < i < |c| ==> c[i].actv == Active
  }

  lemma {:induction false} RepOfActive(c: seq<Brch>, i: nat)
    requires Earlier(c) && AllActive(c) && 0 < i < |c|
    requires forall j: nat {:trigger FittingAt(c, j)} :: 0 < j <= i && j < |c| ==> FittingAt(c, j)
    ensures |Rep(c, i)| == if IsOperand(c[i].typ) then 1 else 0
    decreases i
  {
    if c[i].typ.Dump? {
      assert EarlierAt(c, i) && FittingAt(c, i);
      RepOfActive(c, c[i].ileft);
    }
  }

  /** With everything ACTIVE, being served means having parents that fit. */
  lemma ServedIfFits(c: seq<Brch>, i: nat)
    requires Earlier(c) && AllActive(c) && 0 < i < |c|
    requires forall j: nat {:trigger FittingAt(c, j)} :: 0 < j < i ==> FittingAt(c, j)
    ensures ServedAt(c, i) <==> FittingAt(c, i)
  {
    hide Rep;
    assert EarlierAt(c, i);
    if IsUnary(c[i].typ) {
      UnaryServed(c, i);
      RepOfActive(c, c[i].ileft);
    } else if c[i].Class() == Boolean {
      BooleanServed(c, i);
      RepOfActive(c, c[i].ileft);
      RepOfActive(c, c[i].irite);
    } else if InsideSketch(c[i].typ) {
      RepOfActive(c, i - 1);
    }
  }

  predicate Fitting(c: seq<Brch>)
    requires Earlier(c)
  {
    forall i: nat {:trigger FittingAt(c, i)} :: 0 < i < |c| ==> FittingAt(c, i)
  }

  lemma {:induction false} FitsUpTo(c: seq<Brch>, k: nat)
    requires Earlier(c) && AllActive(c) && k <= |c| && Served(c)
    ensures forall i: nat {:trigger FittingAt(c, i)} :: 0 < i < k ==> FittingAt(c, i)
  {
    hide ServedAt, FittingAt, Earlier;
    if k > 1 {
      FitsUpTo(c, k - 1);
      assert ServedAt(c, k - 1);
      ServedIfFits(c, k - 1);
    }
  }

  lemma ServedIffFitting(c: seq<Brch>)
    requires Earlier(c) && AllActive(c)
    ensures Served(c) <==> Fitting(c)
  {
    hide ServedAt, FittingAt, Earlier;
    if Served(c) { FitsUpTo(c, |c|); }
    if Fitting(c) {
      forall i: nat | 0 < i < |c| ensures ServedAt(c, i) {
        assert FittingAt(c, i);
        ServedIfFits(c, i);
      }
    }
  }

  lemma {:induction false} NoMacros(b: seq<Brch>, k: nat)
    requires Straight(b) && k <= |b|
    ensures MacroDepth(b, k) == 0
  {
    if k > 1 { NoMacros(b, k - 1); }
  }

  lemma UnsuppressedIsActive(b: seq<Brch>)
    requires Passes(b) && Straight(b) && forall j :: 0 < j < |b| ==> b[j].actv != Suppressed
    ensures AllActive(Checked(b))
  {
    hide LinkAll, Reached, Directed, MacroDepth;
    var l := LinksOf(b);
    NothingReached(l, |l|);
    forall k | 0 < k < |l| ensures Outcome(l, k) == Active { NoMacros(l, k); }
  }

  /** With nothing suppressed, the build follows the links if and only if no Branch was
      linked to a part of a sketch that is still open, and no sketch goes on after an
      operand. */
  lemma UnsuppressedFollowsIff(b: seq<Brch>)
    requires Passes(b) && Straight(b) && forall j :: 0 < j < |b| ==> b[j].actv != Suppressed
    ensures Earlier(Checked(b))
    ensures Follows(b) <==> Fitting(Checked(b))
  {
    hide Follows, Served, Fitting, Checked, Passes, Earlier;
    CheckedIsEarlier(b);
    FollowsIffServed(b);
    UnsuppressedIsActive(b);
    ServedIffFitting(Checked(b));
  }

  // ----- a suppressed GROWN Branch -----

  /** The right operands of the BOOLEANs that are passed on the way left from `j`. */
  function LeftOver(c: seq<Brch>, j: nat): seq<nat>
    requires Earlier(c) && 0 < j < |c|
    decreases j
  {
    assert EarlierAt(c, j);
    if IsUnary(c[j].typ) then LeftOver(c, c[j].ileft)
    else if c[j].Class() == Boolean then LeftOver(c, c[j].ileft) + Rep(c, c[j].irite)
    else []
  }

  /** On the way left nothing is ACTIVE, down to the beginning of a sketch. */
  lemma {:induction false} LeftIsIdle(l: seq<Brch>, j: nat)
    requires Directed(l, |l|) && Earlier(Settle(l)) && 0 < j < |l|
    requires forall k :: k in LeftWalk(l, j, SkBeg) ==> 0 < k < |l| && Settle(l)[k].actv != Active
    ensures Rep(Settle(l), j) == LeftOver(Settle(l), j)
    decreases j
  {
    hide Outcome, Directed, Earlier;
    var c := Settle(l);
    assert EarlierAt(c, j) by { EarlierHere(c, j); }
    assert j in LeftWalk(l, j, SkBeg);
    if IsUnary(l[j].typ) || l[j].Class() == Boolean {
      assert LeftWalk(l, l[j].ileft, SkBeg) <= LeftWalk(l, j, SkBeg);
      LeftIsIdle(l, l[j].ileft);
    }
  }

  lemma EarlierHere(c: seq<Brch>, j: nat)
    requires Earlier(c) && 0 < j < |c|
    ensures EarlierAt(c, j)
  {
  }

  lemma {:induction false} LeftWalkIsInside(l: seq<Brch>, j: int, stop: Type, k: int)
    requires Directed(l, |l|) && j < |l| && k in LeftWalk(l, j, stop)
    ensures 0 < k <= j
    decreases j
  {
    if k != j { LeftWalkIsInside(l, l[j].ileft, stop, k); }
  }

  lemma WalkIsIdle(l: seq<Brch>, i: nat, k: int)
    requires Directed(l, |l|) && 0 < i < |l| && l[i].Class() == Grown && !l[i].typ.Loft? && l[i].actv == Suppressed
    requires k in LeftWalk(l, l[i].ileft, SkBeg)
    ensures 0 < k < |l| && Settle(l)[k].actv != Active
  {
    LeftWalkIsInside(l, l[i].ileft, SkBeg, k);
    hide MacroDepth, LeftWalk, ChildWalk;
    ReachedIff(l, |l|, k);
    assert k in Reach(l, i);
  }

  /** A suppressed GROWN Branch takes everything on its way left off the Body stack, but
      not the right operands of the BOOLEANs there: these stay in its place. */
  lemma SuppressedGrownLeaves(b: seq<Brch>, i: nat)
    requires Passes(b) && Straight(b) && 0 < i < |b| && b[i].Class() == Grown && b[i].actv == Suppressed
    ensures |Checked(b)| == |b| && Earlier(Checked(b)) && 0 < Checked(b)[i].ileft < |b|
    ensures Rep(Checked(b), i) == LeftOver(Checked(b), Checked(b)[i].ileft)
  {
    hide LinkAll, Outcome, Directed, Earlier, LeftOver, LeftWalk, EarlierAt;
    CheckedIsEarlier(b);
    var l := LinksOf(b);
    var c := Settle(l);
    GrownHere(b, i);
    forall k | k in LeftWalk(l, l[i].ileft, SkBeg) ensures 0 < k < |l| && c[k].actv != Active {
      WalkIsIdle(l, i, k);
    }
    LeftIsIdle(l, l[i].ileft);
    UnaryServed(c, i);
  }

  lemma GrownHere(b: seq<Brch>, i: nat)
    requires Passes(b) && Straight(b) && 0 < i < |b| && b[i].Class() == Grown && b[i].actv == Suppressed
    requires Earlier(Checked(b)) && |Checked(b)| == |b|
    ensures var l := LinksOf(b); l[i].Class() == Grown && !l[i].typ.Loft? && l[i].actv == Suppressed && 0 < l[i].ileft < |l|
    ensures Checked(b)[i].actv == Suppressed && Checked(b)[i].typ == b[i].typ && Checked(b)[i].ileft == LinksOf(b)[i].ileft
  {
    hide LinkAll, Reached, Directed;
    EarlierHere(Checked(b), i);
  }
}

/**
 What checking a model computes: the links a stack of Branch indices would give.

 The checker itself has no such stack. It looks for the Branches nobody has
 claimed yet (those whose child is 0) by scanning backwards.
*/
module LinkSpec {
  import opened Branches

  /** Branches (entry 0 is not used) and the indices of those still without a child. */
  datatype Links = Good(b: seq<Brch>, stack: seq<nat>) | Bad(status: Status)

  function Top(stack: seq<nat>): nat
    requires stack != []
  {
    stack[|stack| - 1]
  }

  function Pop(stack: seq<nat>): seq<nat>
    requires stack != []
  {
    stack[..|stack| - 1]
  }

  function SetChild(b: seq<Brch>, j: nat, i: nat): seq<Brch>
    requires j < |b|
  {
    b[j := b[j].(ichld := i)]
  }

  function SetChildren(b: seq<Brch>, js: seq<nat>, i: nat): (r: seq<Brch>)
    ensures |r| == |b|
  {
    seq(|b|, k requires 0 <= k < |b| => if k in js then b[k].(ichld := i) else b[k])
  }

  /** All entries lie strictly between 0 and `i`. */
  predicate UpTo(stack: seq<nat>, i: int) {
    forall k :: 0 <= k < |stack| ==> 0 < stack[k] < i
  }

  /** How many entries are left when those greater than `j` are popped. */
  function Cut(stack: seq<nat>, j: int): (k: nat)
    ensures k <= |stack|
    ensures forall p :: k <= p < |stack| ==> stack[p] > j
    ensures k > 0 ==> stack[k - 1] <= j
  {
    if stack == [] || Top(stack) <= j then |stack| else Cut(Pop(stack), j)
  }

  function Above(stack: seq<nat>, j: int): seq<nat> { stack[Cut(stack, j)..] }

  function Below(stack: seq<nat>, j: int): seq<nat> { stack[..Cut(stack, j)] }

  /** Takes entry `j` out of the stack, wherever it is. */
  function Without(stack: seq<nat>, j: nat): seq<nat> {
    var k := Cut(stack, j);
    if k > 0 && stack[k - 1] == j then stack[..k - 1] + stack[k..] else stack
  }

  /** The nearest Branch up to `j` whose type is among `ts`, or 0. */
  function Nearest(b: seq<Brch>, j: nat, ts: set<Type>): (r: nat)
    requires j < |b|
    ensures r <= j && (r > 0 ==> b[r].typ in ts)
  {
    if j == 0 || b[j].typ in ts then j else Nearest(b, j - 1, ts)
  }

  /** The macro beginning that matches a macro end, or 0: the nearest one with
      `n` more ends than beginnings between. */
  function MatchBeg(b: seq<Brch>, j: nat, n: int): (r: nat)
    requires j < |b|
    ensures r <= j
  {
    if j == 0 then 0
    else
      var m := if b[j].typ.MacEnd? then n + 1 else if b[j].typ.MacBeg? then n - 1 else n;
      if m <= 0 then j else MatchBeg(b, j - 1, m)
  }

  predicate Fits(r: Links, n: nat, i: nat) {
    r.Good? ==> |r.b| == n && UpTo(r.stack, i + 1)
  }

  /** Branch `i` is an operand for later. */
  function PushNew(b: seq<Brch>, stack: seq<nat>, i: nat): (r: Links)
    requires 0 < i < |b| && UpTo(stack, i)
    ensures Fits(r, |b|, i)
  {
    Good(SetChild(b, i, 0), stack + [i])
  }

  /** Branch `i` takes the top operand. */
  function TakeOne(b: seq<Brch>, stack: seq<nat>, i: nat): (r: Links)
    requires 0 < i < |b| && stack != [] && UpTo(stack, i)
    ensures Fits(r, |b|, i)
  {
    var l := Top(stack);
    Good(SetChild(b, l, i)[i := b[i].(ileft := l, ichld := 0)], Pop(stack) + [i])
  }

  /** Branch `i` takes the top two operands. */
  function TakeTwo(b: seq<Brch>, stack: seq<nat>, i: nat): (r: Links)
    requires 0 < i < |b| && |stack| >= 2 && UpTo(stack, i)
    ensures Fits(r, |b|, i)
  {
    var r, l := Top(stack), Top(Pop(stack));
    Good(SetChild(SetChild(b, r, i), l, i)[i := b[i].(ileft := l, irite := r, ichld := 0)], Pop(Pop(stack)) + [i])
  }

  /** The skins of a loft: everything back to the nearest mark. */
  function LinkLoft(b: seq<Brch>, stack: seq<nat>, i: nat): (r: Links)
    requires 0 < i < |b| && UpTo(stack, i)
    ensures Fits(r, |b|, i)
  {
    var mark := Nearest(b, i - 1, {Mark});
    var skins := Above(stack, mark);
    if mark == 0 then Bad(LoftWithoutMark)
    else if |skins| < 1 then Bad(ExpectingNLoftSketches)
    else if |skins| >= MAX_NUM_SKETCHES then Bad(TooManySketchesInLoft)
    else Good(SetChildren(b, skins, i)[i := b[i].(ileft := skins[0], ichld := 0)], Below(stack, mark) + [i])
  }

  /** The inside of a sketch is linked to the Branch just before it. */
  function LinkSketch(b: seq<Brch>, stack: seq<nat>, i: nat): (r: Links)
    requires 0 < i < |b| && UpTo(stack, i)
    ensures Fits(r, |b|, i)
  {
    var j := Nearest(b, i - 1, {SkEnd, SolEnd, SkBeg});
    if j == 0 then Bad(SketcherIsNotOpen)
    else if b[j].typ.SkEnd? then Bad(SketcherIsOpen)
    else if b[j].typ.SolEnd? then Bad(SolverIsNotOpen)
    else Good(SetChild(b, i - 1, i)[i := b[i].(ileft := i - 1, ichld := 0)], Without(stack, i - 1) + [i])
  }

  /** Solver Branches are all linked to the one that opens the solver. */
  function LinkSolver(b: seq<Brch>, stack: seq<nat>, i: nat): (r: Links)
    requires 0 < i < |b| && UpTo(stack, i)
    ensures Fits(r, |b|, i)
  {
    var j := Nearest(b, i - 1, {SolEnd, SkEnd, SolBeg});
    if j == 0 then Bad(SolverIsNotOpen)
    else if b[j].typ.SolEnd? then Bad(SolverIsOpen)
    else if b[j].typ.SkEnd? then Bad(SketcherIsNotOpen)
    else Good(SetChild(b, j, i)[i := b[i].(ileft := j, ichld := 0)], Without(stack, j) + [i])
  }

  /** The end of a macro takes everything its body leaves. */
  function LinkMacEnd(b: seq<Brch>, stack: seq<nat>, i: nat): (r: Links)
    requires 0 < i < |b| && UpTo(stack, i)
    ensures Fits(r, |b|, i)
  {
    var m := MatchBeg(b, i - 1, 1);
    if m > 0 then
      Good(SetChildren(b, Above(stack, m - 1), i)[i := b[i].(ileft := m, irite := i, ichld := -1)], Below(stack, m - 1))
    else
      Good(SetChildren(b, Above(stack, 0), i)[i := b[i].(ileft := 0, irite := 0, ichld := 0)], [i])
  }

  /** One Branch. */
  function LinkOne(b: seq<Brch>, stack: seq<nat>, i: nat): (r: Links)
    requires 0 < i < |b| && UpTo(stack, i)
    ensures Fits(r, |b|, i)
  {
    match b[i].Class()
    case Primitive => PushNew(b, stack, i)
    case Grown =>
      if b[i].typ.Loft? then LinkLoft(b, stack, i)
      else if stack == [] then Bad(ExpectingOneSketch) else TakeOne(b, stack, i)
    case Applied =>
      if stack == [] || b[Top(stack)].typ.SkEnd? then Bad(ExpectingOneBody) else TakeOne(b, stack, i)
    case Boolean => if |stack| < 2 then Bad(ExpectingTwoBodys) else TakeTwo(b, stack, i)
    case Transform => if stack == [] then Bad(ExpectingOneBody) else TakeOne(b, stack, i)
    case Sketch => if b[i].typ.SkBeg? then PushNew(b, stack, i) else LinkSketch(b, stack, i)
    case Solver => if b[i].typ.SolBeg? then PushNew(b, stack, i) else LinkSolver(b, stack, i)
    case Utility =>
      match b[i].typ
      case MacEnd => LinkMacEnd(b, stack, i)
      case Recall => Good(b[i := b[i].(ileft := 0, irite := 0, ichld := 0)], stack + [i])
      case Dump => if stack == [] || b[Top(stack)].typ.MacEnd? then Bad(ExpectingOneBody) else TakeOne(b, stack, i)
      case _ => Good(b, stack)
  }

  /** No links yet. */
  function Unlinked(b: seq<Brch>): seq<Brch> {
    seq(|b|, k requires 0 <= k < |b| => if k > 0 then b[k].(ileft := -1, irite := -1, ichld := -1) else b[k])
  }

  /** The first `n` Branches, or the first complaint. */
  function LinkAll(b: seq<Brch>, n: nat): (r: Links)
    requires n < |b|
    ensures Fits(r, |b|, n)
  {
    if n == 0 then Good(Unlinked(b), [])
    else
      var s := LinkAll(b, n - 1);
      if s.Bad? then s else LinkOne(s.b, s.stack, n)
  }
}

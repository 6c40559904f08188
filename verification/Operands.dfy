/** What a check comes to for each type of Branch: which Branches it claims, and when it is
    refused. */
module Operands {
  import opened ActivitySpec
  import opened Branches
  import opened LinkSpec
  import opened LinkStack

  // ----- types -----

  predicate Makes(t: Type) { t.Box? || t.Sphere? || t.Cone? || t.Cylinder? || t.Torus? || t.Import? || t.UdPrim? }

  predicate Grows(t: Type) { t.Extrude? || t.Revolve? }

  predicate Applies(t: Type) { t.Fillet? || t.Chamfer? || t.Hollow? }

  predicate Joins(t: Type) { t.Intersect? || t.Subtract? || t.Union? }

  predicate Transforms(t: Type) { t.Translate? || t.RotateX? || t.RotateY? || t.RotateZ? || t.Scale? }

  predicate Sketches(t: Type) { t.LinSeg? || t.CirArc? || t.Spline? || t.SkEnd? }

  predicate Solves(t: Type) { t.SolCon? || t.SolEnd? }

  predicate StandsBy(t: Type) { t.Set? || t.MacBeg? || t.PatBeg? || t.PatEnd? || t.Mark? }

  /** Types that take one Branch, and types that take none. */
  predicate TakesOneBranch(t: Type) { Grows(t) || Applies(t) || Transforms(t) || Sketches(t) || t.Dump? }

  predicate TakesNone(t: Type) { Makes(t) || StandsBy(t) || t.SkBeg? || t.SolBeg? || t.Recall? }

  // ----- claims -----

  /** Branch `p` was claimed by Branch `i`, and still is, unless it opens a solver: then the
      Branches of that solver may have claimed it since. */
  ghost predicate Claims(c: seq<Brch>, i: nat, p: int, n: nat) {
    && 0 < p < i < n <= |c|
    && (!c[p].typ.SolBeg? ==> c[p].ichld == i)
    && c[p].ichld >= i
    && (c[p].ichld == i <==> forall k: nat :: i < k < n && Solves(c[k].typ) ==> c[k].ileft != p)
  }

  /** No Branch but `p` and `q` is claimed by Branch `i`. */
  ghost predicate ClaimsOnly(c: seq<Brch>, i: nat, p: int, q: int) {
    forall j :: 0 < j < |c| && j != p && j != q ==> c[j].ichld != i
  }

  ghost predicate SatisfiedTwo(c: seq<Brch>, i: nat, n: nat)
    requires 0 < i < n <= |c|
  {
    Joins(c[i].typ) ==>
      && c[i].ileft < c[i].irite && Claims(c, i, c[i].ileft, n) && Claims(c, i, c[i].irite, n)
      && ClaimsOnly(c, i, c[i].ileft, c[i].irite)
  }

  ghost predicate SatisfiedOne(c: seq<Brch>, i: nat, n: nat)
    requires 0 < i < n <= |c|
  {
    TakesOneBranch(c[i].typ) ==>
      && Claims(c, i, c[i].ileft, n) && ClaimsOnly(c, i, c[i].ileft, c[i].ileft)
      && (Applies(c[i].typ) ==> !c[c[i].ileft].typ.SkEnd?)
      && (c[i].typ.Dump? ==> !c[c[i].ileft].typ.MacEnd?)
      && (Sketches(c[i].typ) ==> c[i].ileft == i - 1)
  }

  ghost predicate SatisfiedNone(c: seq<Brch>, i: nat, n: nat)
    requires 0 < i < n <= |c|
  {
    TakesNone(c[i].typ) ==> ClaimsOnly(c, i, 0, 0)
  }

  ghost predicate SatisfiedSolver(c: seq<Brch>, i: nat, n: nat)
    requires 0 < i < n <= |c|
  {
    Solves(c[i].typ) ==> 0 < c[i].ileft < i && c[c[i].ileft].typ.SolBeg? && ClaimsOnly(c, i, c[i].ileft, c[i].ileft)
  }

  /** `m` is the last Branch before `i` whose type is in `ts`. */
  predicate LastBefore(c: seq<Brch>, m: nat, i: nat, ts: set<Type>) {
    0 < m < i <= |c| && c[m].typ in ts && forall j :: m < j < i ==> c[j].typ !in ts
  }

  /** No Branch from `lo` up to, not including, `hi` is left without a child. */
  predicate Emptied(c: seq<Brch>, lo: nat, hi: nat) {
    hi <= |c| && forall j :: lo <= j < hi && 0 < j ==> c[j].ichld != 0
  }

  /** A loft has claimed all that was left after the last mark, the first of it on its left. */
  ghost predicate LoftedFrom(c: seq<Brch>, i: nat, n: nat, m: nat)
    requires 0 < i < n <= |c|
  {
    && LastBefore(c, m, i, {Mark}) && m < c[i].ileft && Claims(c, i, c[i].ileft, n) && Emptied(c, m + 1, i)
    && forall j :: 0 < j < c[i].ileft ==> c[j].ichld != i
  }

  ghost predicate SatisfiedMany(c: seq<Brch>, i: nat, n: nat)
    requires 0 < i < n <= |c|
  {
    && (c[i].typ.Loft? ==> exists m: nat :: LoftedFrom(c, i, n, m))
    && (c[i].typ.MacEnd? ==> 0 <= c[i].ileft && Emptied(c, c[i].ileft, i))
  }

  /** Which Branches can be claimed by later ones. */
  predicate IsLeft(c: seq<Brch>, i: nat)
    requires i < |c|
  {
    if StandsBy(c[i].typ) then c[i].ichld != 0 else c[i].typ.MacEnd? || c[i].ichld >= 0
  }

  /** What Branch `i` has claimed, if those before `n` are linked. */
  ghost predicate Satisfied(c: seq<Brch>, i: nat, n: nat)
    requires 0 < i < n <= |c|
  {
    && SatisfiedTwo(c, i, n) && SatisfiedOne(c, i, n) && SatisfiedNone(c, i, n) && SatisfiedSolver(c, i, n) && SatisfiedMany(c, i, n)
    && IsLeft(c, i)
  }

  // ----- claims stay -----

  /** Linking Branch `n` changes no other Branch but for its child, and takes a Branch away
      from another only for a solver. */
  ghost predicate Changes(b: seq<Brch>, c: seq<Brch>, n: nat) {
    && 0 < n < |b| && SameBranches(b, c) && c[n].ichld <= 0
    && (forall j :: 0 < j < n ==> c[j].ileft == b[j].ileft && c[j].irite == b[j].irite)
    && (forall j :: 0 < j < |b| && j != n ==> c[j].ichld == b[j].ichld || (j < n && c[j].ichld == n))
    && (forall j :: 0 < j < n && b[j].ichld > 0 && c[j].ichld == n ==>
          c[j].typ.SolBeg? && Solves(c[n].typ) && c[n].ileft == j)
    && (Solves(c[n].typ) ==> 0 < c[n].ileft < n && c[c[n].ileft].ichld == n)
  }

  lemma ClaimStays(b: seq<Brch>, c: seq<Brch>, n: nat, i: nat, p: int)
    requires Changes(b, c, n) && Claims(b, i, p, n)
    ensures Claims(c, i, p, n + 1)
  {
    assert forall k: nat :: i < k < n ==> c[k].typ == b[k].typ && c[k].ileft == b[k].ileft;
    if c[p].ichld != b[p].ichld {
      assert Solves(c[n].typ) && c[n].ileft == p;
    }
  }

  lemma ClaimsNoMore(b: seq<Brch>, c: seq<Brch>, n: nat, i: nat, p: int, q: int)
    requires Changes(b, c, n) && 0 < i < n && ClaimsOnly(b, i, p, q)
    ensures ClaimsOnly(c, i, p, q)
  {
  }

  lemma StaysEmptied(b: seq<Brch>, c: seq<Brch>, n: nat, lo: nat, hi: nat)
    requires Changes(b, c, n) && hi <= n && Emptied(b, lo, hi)
    ensures Emptied(c, lo, hi)
  {
  }

  lemma StaysLast(b: seq<Brch>, c: seq<Brch>, m: nat, i: nat, ts: set<Type>)
    requires SameBranches(b, c) && LastBefore(b, m, i, ts)
    ensures LastBefore(c, m, i, ts)
  {
  }

  lemma SameHere(b: seq<Brch>, c: seq<Brch>, n: nat, i: nat)
    requires Changes(b, c, n) && 0 < i < n
    ensures n < |b| == |c| && c[i].typ == b[i].typ && c[i].ileft == b[i].ileft && c[i].irite == b[i].irite
    ensures c[i].ichld == b[i].ichld || c[i].ichld == n
    ensures 0 < b[i].ileft < n ==> c[b[i].ileft].typ == b[b[i].ileft].typ
  {
  }

  lemma StaysSatisfiedTwo(b: seq<Brch>, c: seq<Brch>, n: nat, i: nat)
    requires Changes(b, c, n) && 0 < i < n && SatisfiedTwo(b, i, n)
    ensures SatisfiedTwo(c, i, n + 1)
  {
    hide Claims, ClaimsOnly, Changes;
    SameHere(b, c, n, i);
    if Joins(c[i].typ) {
      ClaimStays(b, c, n, i, c[i].ileft);
      ClaimStays(b, c, n, i, c[i].irite);
      ClaimsNoMore(b, c, n, i, c[i].ileft, c[i].irite);
    }
  }

  lemma StaysSatisfiedOne(b: seq<Brch>, c: seq<Brch>, n: nat, i: nat)
    requires Changes(b, c, n) && 0 < i < n && SatisfiedOne(b, i, n)
    ensures SatisfiedOne(c, i, n + 1)
  {
    hide ClaimsOnly, Changes, Applies, Sketches, TakesOneBranch;
    SameHere(b, c, n, i);
    if TakesOneBranch(c[i].typ) {
      ClaimStays(b, c, n, i, c[i].ileft);
      ClaimsNoMore(b, c, n, i, c[i].ileft, c[i].ileft);
    }
  }

  lemma StaysSatisfiedMany(b: seq<Brch>, c: seq<Brch>, n: nat, i: nat)
    requires Changes(b, c, n) && 0 < i < n && SatisfiedMany(b, i, n)
    ensures SatisfiedMany(c, i, n + 1)
  {
    hide Claims, Changes, LastBefore, Emptied;
    SameHere(b, c, n, i);
    if c[i].typ.MacEnd? { StaysEmptied(b, c, n, c[i].ileft, i); }
    if c[i].typ.Loft? {
      var m: nat :| LoftedFrom(b, i, n, m);
      ClaimStays(b, c, n, i, c[i].ileft);
      StaysEmptied(b, c, n, m + 1, i);
      KeepsBranches(b, c, n);
      StaysLast(b, c, m, i, {Mark});
      forall j | 0 < j < c[i].ileft ensures c[j].ichld != i { LeftAlone(b, c, n, i, j); }
      assert LoftedFrom(c, i, n + 1, m);
    }
  }

  lemma KeepsBranches(b: seq<Brch>, c: seq<Brch>, n: nat)
    requires Changes(b, c, n)
    ensures SameBranches(b, c)
  {
  }

  lemma LeftAlone(b: seq<Brch>, c: seq<Brch>, n: nat, i: nat, j: int)
    requires Changes(b, c, n) && 0 < i < n && 0 < j < |b| && b[j].ichld != i
    ensures c[j].ichld != i
  {
  }

  lemma StaysSatisfied(b: seq<Brch>, c: seq<Brch>, n: nat, i: nat)
    requires Changes(b, c, n) && 0 < i < n && Satisfied(b, i, n)
    ensures Satisfied(c, i, n + 1)
  {
    hide ClaimsOnly, Changes, SatisfiedTwo, SatisfiedOne, SatisfiedMany, TakesNone, Solves, StandsBy;
    SameHere(b, c, n, i);
    StaysSatisfiedTwo(b, c, n, i);
    StaysSatisfiedOne(b, c, n, i);
    StaysSatisfiedMany(b, c, n, i);
    if TakesNone(c[i].typ) { ClaimsNoMore(b, c, n, i, 0, 0); }
    if Solves(c[i].typ) { ClaimsNoMore(b, c, n, i, c[i].ileft, c[i].ileft); }
  }

  /* ---- one Branch is linked ---- */

  ghost predicate SatisfiesOne(b: seq<Brch>, r: Links, i: nat) {
    r.Good? ==> Changes(b, r.b, i) && Satisfied(r.b, i, i + 1)
  }

  /** Branch `i` has just claimed Branch `p`. */
  lemma JustClaimed(c: seq<Brch>, i: nat, p: nat)
    requires 0 < p < i < |c| && c[p].ichld == i
    ensures Claims(c, i, p, i + 1)
  {
  }

  lemma PushChanges(b: seq<Brch>, stack: seq<nat>, i: nat)
    requires i < |b| && Linked(b, stack, i) && !Solves(b[i].typ)
    ensures var c := PushNew(b, stack, i).b; Changes(b, c, i) && ClaimsOnly(c, i, 0, 0) && c[i] == b[i].(ichld := 0)
  {
  }

  lemma PushSatisfies(b: seq<Brch>, stack: seq<nat>, i: nat)
    requires i < |b| && Linked(b, stack, i) && (Makes(b[i].typ) || b[i].typ.SkBeg? || b[i].typ.SolBeg?)
    ensures SatisfiesOne(b, PushNew(b, stack, i), i)
  {
    hide Claims, ClaimsOnly, Changes, Linked, LoftedFrom, Emptied;
    PushChanges(b, stack, i);
  }

  lemma OneChanges(b: seq<Brch>, stack: seq<nat>, i: nat)
    requires i < |b| && Linked(b, stack, i) && stack != [] && !Solves(b[i].typ)
    ensures TakeOne(b, stack, i).Good?
    ensures var c := TakeOne(b, stack, i).b; var p := Top(stack);
            && Changes(b, c, i) && ClaimsOnly(c, i, p, p) && 0 < p < i && c[p].ichld == i && c[p].typ == b[p].typ
            && c[i] == b[i].(ileft := p, ichld := 0)
  {
    assert Top(stack) in stack;
  }

  lemma TakeOneSatisfies(b: seq<Brch>, stack: seq<nat>, i: nat)
    requires i < |b| && Linked(b, stack, i) && stack != [] && TakesOneBranch(b[i].typ)
    requires Applies(b[i].typ) ==> !b[Top(stack)].typ.SkEnd?
    requires b[i].typ.Dump? ==> !b[Top(stack)].typ.MacEnd?
    requires Sketches(b[i].typ) ==> Top(stack) == i - 1
    ensures SatisfiesOne(b, TakeOne(b, stack, i), i)
  {
    hide Claims, ClaimsOnly, Changes, LoftedFrom, Emptied, TakeOne;
    OneChanges(b, stack, i);
    JustClaimed(TakeOne(b, stack, i).b, i, Top(stack));
  }

  lemma TwoChanges(b: seq<Brch>, stack: seq<nat>, i: nat)
    requires i < |b| && Linked(b, stack, i) && |stack| >= 2 && !Solves(b[i].typ)
    ensures TakeTwo(b, stack, i).Good?
    ensures var c := TakeTwo(b, stack, i).b; var p, q := Top(Pop(stack)), Top(stack);
            && Changes(b, c, i) && ClaimsOnly(c, i, p, q) && 0 < p < q < i && c[p].ichld == i && c[q].ichld == i
            && c[i] == b[i].(ileft := p, irite := q, ichld := 0)
  {
    assert Top(stack) in stack && Top(Pop(stack)) in stack;
    assert Top(Pop(stack)) < Top(stack);
  }

  lemma TakeTwoSatisfies(b: seq<Brch>, stack: seq<nat>, i: nat)
    requires i < |b| && Linked(b, stack, i) && |stack| >= 2 && Joins(b[i].typ)
    ensures SatisfiesOne(b, TakeTwo(b, stack, i), i)
  {
    hide Claims, ClaimsOnly, Changes, LoftedFrom, Emptied, TakeTwo;
    TwoChanges(b, stack, i);
    JustClaimed(TakeTwo(b, stack, i).b, i, Top(stack));
    JustClaimed(TakeTwo(b, stack, i).b, i, Top(Pop(stack)));
  }

  /** Sketch and solver Branches claim a Branch that need not be on the stack. */
  lemma DetachChanges(b: seq<Brch>, stack: seq<nat>, i: nat, p: nat)
    requires 0 < p < i < |b| && Linked(b, stack, i)
    requires if Solves(b[i].typ) then b[p].typ.SolBeg? else p == i - 1
    ensures var c := SetChild(b, p, i)[i := b[i].(ileft := p, ichld := 0)];
            && Changes(b, c, i) && ClaimsOnly(c, i, p, p) && c[p].ichld == i && c[i] == b[i].(ileft := p, ichld := 0)
            && c[p].typ == b[p].typ
  {
  }

  lemma SketchSatisfies(b: seq<Brch>, stack: seq<nat>, i: nat)
    requires i < |b| && Linked(b, stack, i) && Sketches(b[i].typ)
    ensures SatisfiesOne(b, LinkSketch(b, stack, i), i)
  {
    hide Claims, ClaimsOnly, Changes, LoftedFrom, Emptied, Without, Nearest, Linked;
    AtLeastOne(b, stack, i);
    if i > 1 {
      DetachChanges(b, stack, i, i - 1);
      JustClaimed(SetChild(b, i - 1, i)[i := b[i].(ileft := i - 1, ichld := 0)], i, i - 1);
    }
  }

  lemma AtLeastOne(b: seq<Brch>, stack: seq<nat>, i: nat)
    requires Linked(b, stack, i)
    ensures 0 < i <= |b| && UpTo(stack, i)
  {
  }

  lemma SolverSatisfies(b: seq<Brch>, stack: seq<nat>, i: nat)
    requires i < |b| && Linked(b, stack, i) && Solves(b[i].typ)
    ensures SatisfiesOne(b, LinkSolver(b, stack, i), i)
  {
    hide Claims, ClaimsOnly, Changes, LoftedFrom, Emptied, Without, Nearest, Linked;
    AtLeastOne(b, stack, i);
    var p := Nearest(b, i - 1, {SolEnd, SkEnd, SolBeg});
    if p > 0 && b[p].typ.SolBeg? {
      DetachChanges(b, stack, i, p);
      JustClaimed(SetChild(b, p, i)[i := b[i].(ileft := p, ichld := 0)], i, p);
    }
  }

  /** A Branch that claims everything above Branch `m` on the stack. */
  lemma ManyChanges(b: seq<Brch>, stack: seq<nat>, i: nat, m: int, x: Brch)
    requires i < |b| && Linked(b, stack, i) && !Solves(b[i].typ) && 0 <= m
    requires x.typ == b[i].typ && x.actv == b[i].actv && x.ichld <= 0
    ensures var js := Above(stack, m); var c := SetChildren(b, js, i)[i := x];
            && Changes(b, c, i) && Emptied(c, m + 1, i) && c[i] == x
            && (forall j :: 0 < j < |c| && j !in js ==> c[j].ichld != i)
            && (forall j :: j in js ==> m < j < i && c[j].ichld == i)
  {
    hide Linked, Above;
    AboveIsUnclaimed(b, stack, i, m);
  }

  lemma AboveIsUnclaimed(b: seq<Brch>, stack: seq<nat>, i: nat, m: int)
    requires Linked(b, stack, i) && 0 <= m
    ensures 0 < i <= |b| && Directed(b, i)
    ensures forall j :: j in Above(stack, m) ==> m < j < i && b[j].ichld == 0
    ensures forall j :: m < j < i && b[j].ichld == 0 ==> j in Above(stack, m)
  {
    hide Cut;
    CutMembers(stack, m);
    forall j | j in stack ensures 0 < j < i && b[j].ichld == 0 {
      assert IsOpen(b, j) <==> j in stack;
    }
    forall j | m < j < i && b[j].ichld == 0 ensures j in stack {
      assert IsOpen(b, j) <==> j in stack;
    }
  }

  lemma FirstIsLeast(stack: seq<nat>, m: int)
    requires Sorted(stack) && Above(stack, m) != []
    ensures Above(stack, m)[0] in Above(stack, m) && forall j :: j in Above(stack, m) ==> Above(stack, m)[0] <= j
  {
    hide Cut;
  }

  lemma {:induction false} NearestIsLast(b: seq<Brch>, j: nat, ts: set<Type>)
    requires j < |b|
    ensures var m := Nearest(b, j, ts); if m > 0 then LastBefore(b, m, j + 1, ts) else forall k :: 0 < k <= j ==> b[k].typ !in ts
  {
    if j > 0 && b[j].typ !in ts { NearestIsLast(b, j - 1, ts); }
  }

  lemma LoftSatisfies(b: seq<Brch>, stack: seq<nat>, i: nat)
    requires i < |b| && Linked(b, stack, i) && b[i].typ.Loft?
    ensures SatisfiesOne(b, LinkLoft(b, stack, i), i)
  {
    hide Claims, Changes, Emptied, Nearest, Linked, SetChildren, Above, LastBefore;
    AtLeastOne(b, stack, i);
    var m := Nearest(b, i - 1, {Mark});
    var js := Above(stack, m);
    if LinkLoft(b, stack, i).Good? {
      var x := b[i].(ileft := js[0], ichld := 0);
      var c := SetChildren(b, js, i)[i := x];
      ManyChanges(b, stack, i, m, x);
      StackSorted(b, stack, i);
      FirstIsLeast(stack, m);
      JustClaimed(c, i, js[0]);
      NearestIsLast(b, i - 1, {Mark});
      KeepsBranches(b, c, i);
      StaysLast(b, c, m, i, {Mark});
      assert LoftedFrom(c, i, i + 1, m);
    }
  }

  lemma StackSorted(b: seq<Brch>, stack: seq<nat>, i: nat)
    requires Linked(b, stack, i)
    ensures Sorted(stack)
  {
  }

  lemma MacEndSatisfies(b: seq<Brch>, stack: seq<nat>, i: nat)
    requires i < |b| && Linked(b, stack, i) && b[i].typ.MacEnd?
    ensures SatisfiesOne(b, LinkMacEnd(b, stack, i), i)
  {
    hide Claims, ClaimsOnly, Changes, Linked, SetChildren, Above, MatchBeg;
    AtLeastOne(b, stack, i);
    var m: nat := MatchBeg(b, i - 1, 1);
    if m > 0 {
      ManyChanges(b, stack, i, m - 1, b[i].(ileft := m, irite := i, ichld := -1));
    } else {
      ManyChanges(b, stack, i, 0, b[i].(ileft := 0, irite := 0, ichld := 0));
    }
  }

  lemma RecallSatisfies(b: seq<Brch>, stack: seq<nat>, i: nat)
    requires i < |b| && Linked(b, stack, i) && b[i].typ.Recall?
    ensures SatisfiesOne(b, Good(b[i := b[i].(ileft := 0, irite := 0, ichld := 0)], stack + [i]), i)
  {
    hide Claims, LoftedFrom, Emptied;
  }

  lemma BystanderSatisfies(b: seq<Brch>, stack: seq<nat>, i: nat)
    requires i < |b| && Linked(b, stack, i) && StandsBy(b[i].typ)
    ensures SatisfiesOne(b, Good(b, stack), i)
  {
    hide Claims, LoftedFrom, Emptied;
  }

  /* ---- what linking does, by type ---- */

  /** One Branch of each type is linked as that type asks for. */
  lemma LinkOneByType(b: seq<Brch>, stack: seq<nat>, i: nat)
    requires 0 < i < |b| && UpTo(stack, i)
    ensures var t := b[i].typ; var r := LinkOne(b, stack, i);
            && (Makes(t) || t.SkBeg? || t.SolBeg? ==> r == PushNew(b, stack, i))
            && (Grows(t) ==> r == if stack == [] then Bad(ExpectingOneSketch) else TakeOne(b, stack, i))
            && (t.Loft? ==> r == LinkLoft(b, stack, i))
            && (Applies(t) ==> r == if stack == [] || b[Top(stack)].typ.SkEnd? then Bad(ExpectingOneBody) else TakeOne(b, stack, i))
            && (Joins(t) ==> r == if |stack| < 2 then Bad(ExpectingTwoBodys) else TakeTwo(b, stack, i))
            && (Transforms(t) ==> r == if stack == [] then Bad(ExpectingOneBody) else TakeOne(b, stack, i))
            && (Sketches(t) ==> r == LinkSketch(b, stack, i))
            && (Solves(t) ==> r == LinkSolver(b, stack, i))
            && (t.MacEnd? ==> r == LinkMacEnd(b, stack, i))
            && (t.Recall? ==> r == Good(b[i := b[i].(ileft := 0, irite := 0, ichld := 0)], stack + [i]))
            && (t.Dump? ==> r == if stack == [] || b[Top(stack)].typ.MacEnd? then Bad(ExpectingOneBody) else TakeOne(b, stack, i))
            && (StandsBy(t) ==> r == Good(b, stack))
  {
    hide PushNew, TakeOne, TakeTwo, LinkLoft, LinkSketch, LinkSolver, LinkMacEnd;
  }

  lemma AllTypes(t: Type)
    ensures Makes(t) || Grows(t) || t.Loft? || Applies(t) || Joins(t) || Transforms(t) || Sketches(t) || Solves(t) || StandsBy(t)
            || t in {SkBeg, SolBeg, MacEnd, Recall, Dump}
  {
  }

  lemma LinkOneSatisfies(b: seq<Brch>, stack: seq<nat>, i: nat)
    requires i < |b| && Linked(b, stack, i)
    ensures SatisfiesOne(b, LinkOne(b, stack, i), i)
  {
    hide LinkOne, SatisfiesOne, Linked, PushNew, TakeOne, TakeTwo, LinkLoft, LinkSketch, LinkSolver, LinkMacEnd;
    AtLeastOne(b, stack, i);
    LinkOneByType(b, stack, i);
    AllTypes(b[i].typ);
    var t := b[i].typ;
    if LinkOne(b, stack, i).Bad? { RefusedSatisfies(b, LinkOne(b, stack, i).status, i); }
    else if Makes(t) || t.SkBeg? || t.SolBeg? { PushSatisfies(b, stack, i); }
    else if Joins(t) { if |stack| >= 2 { TakeTwoSatisfies(b, stack, i); } }
    else if t.Loft? { LoftSatisfies(b, stack, i); }
    else if Sketches(t) { SketchSatisfies(b, stack, i); }
    else if Solves(t) { SolverSatisfies(b, stack, i); }
    else if t.MacEnd? { MacEndSatisfies(b, stack, i); }
    else if t.Recall? { RecallSatisfies(b, stack, i); }
    else if StandsBy(t) { BystanderSatisfies(b, stack, i); }
    else { TakeOneSatisfies(b, stack, i); }
  }

  lemma RefusedSatisfies(b: seq<Brch>, x: Status, i: nat)
    ensures SatisfiesOne(b, Bad(x), i)
  {
  }

  /** After every prefix, each linked Branch has claimed what its type asks for. */
  ghost predicate AllSatisfied(c: seq<Brch>, n: nat) {
    n <= |c| && forall i: nat :: 0 < i < n ==> Satisfied(c, i, n)
  }

  lemma {:induction false} LinkAllSatisfies(b: seq<Brch>, n: nat)
    requires n < |b| && LinkAll(b, n).Good?
    ensures AllSatisfied(LinkAll(b, n).b, n + 1)
  {
    hide LinkOne, Satisfied, Changes, Linked;
    LinkAllAdvances(b, n);
    if n > 0 {
      LinkAllSatisfies(b, n - 1);
      LinkAllAdvances(b, n - 1);
      var s := LinkAll(b, n - 1);
      var c := LinkAll(b, n).b;
      LinkOneSatisfies(s.b, s.stack, n);
      var n' := n + 1;
      forall i: nat | 0 < i < n' ensures Satisfied(c, i, n') {
        if i < n { StaysSatisfied(s.b, c, n, i); }
      }
    }
  }

  /* ---- what suppression spreads over, by type ---- */

  /** A suppressed Branch that makes or grows something takes its children with it; one that
      grows something takes its left parents, too, back to where the sketch or the skins
      begin. Nothing else takes anything. */
  lemma ReachByType(b: seq<Brch>, p: nat)
    requires Directed(b, |b|) && 0 < p < |b|
    ensures var t := b[p].typ;
            && (Makes(t) ==> Reach(b, p) == ChildWalk(b, b[p].ichld))
            && (Grows(t) ==> Reach(b, p) == LeftWalk(b, b[p].ileft, SkBeg) + ChildWalk(b, b[p].ichld))
            && (t.Loft? ==> Reach(b, p) == LeftWalk(b, b[p].ileft, Mark) + ChildWalk(b, b[p].ichld))
            && (!Makes(t) && !Grows(t) && !t.Loft? ==> Reach(b, p) == {})
  {
    hide LeftWalk, ChildWalk;
  }

  /** Children go along up to the first BOOLEAN and the fillets, chamfers and hollows right
      after it. */
  lemma ChildrenByType(b: seq<Brch>, c: int)
    requires Directed(b, |b|) && 0 < c < |b|
    ensures ChildWalk(b, c) == {c} + if Joins(b[c].typ) then AppliedWalk(b, b[c].ichld) else ChildWalk(b, b[c].ichld)
    ensures AppliedWalk(b, c) == if Applies(b[c].typ) then {c} + AppliedWalk(b, b[c].ichld) else {}
  {
  }

  /* ---- refusals, by type ---- */

  /** No Branch after `m` and before `i` is left without a child. */
  ghost predicate NoneLeft(b: seq<Brch>, m: nat, i: nat) {
    i <= |b| && forall j :: m < j < i ==> b[j].ichld != 0
  }

  /** The Branches after `m` and before `i` that are left. */
  function LeftAfter(b: seq<Brch>, m: nat, i: nat): set<int> {
    set j | m < j < i && j < |b| && b[j].ichld == 0
  }

  ghost predicate AtMostOneLeft(b: seq<Brch>, i: nat)
    requires i <= |b|
  {
    forall j, k :: 0 < j < i && 0 < k < i && b[j].ichld == 0 && b[k].ichld == 0 ==> j == k
  }

  /** What is left last, if anything is, is the end of a sketch. */
  ghost predicate SketchLeftLast(b: seq<Brch>, i: nat)
    requires i <= |b|
  {
    forall j: nat :: 0 < j < i && b[j].ichld == 0 && NoneLeft(b, j, i) ==> b[j].typ.SkEnd?
  }

  ghost predicate OnlyMacrosLeft(b: seq<Brch>, i: nat)
    requires i <= |b|
  {
    forall j :: 0 < j < i && b[j].ichld == 0 ==> b[j].typ.MacEnd?
  }

  ghost predicate NoneOf(b: seq<Brch>, i: nat, ts: set<Type>)
    requires i <= |b|
  {
    forall j :: 0 < j < i ==> b[j].typ !in ts
  }

  ghost predicate LoftDeserves(b: seq<Brch>, i: nat, x: Status)
    requires 0 < i < |b|
  {
    || (x == LoftWithoutMark && NoneOf(b, i, {Mark}))
    || (x == ExpectingNLoftSketches && exists m: nat :: LastBefore(b, m, i, {Mark}) && NoneLeft(b, m, i))
    || (x == TooManySketchesInLoft && exists m: nat :: LastBefore(b, m, i, {Mark}) && |LeftAfter(b, m, i)| >= 100)
  }

  ghost predicate SketchDeserves(b: seq<Brch>, i: nat, x: Status)
    requires 0 < i < |b|
  {
    || (x == SketcherIsNotOpen && NoneOf(b, i, {SkBeg, SkEnd, SolEnd}))
    || (x == SketcherIsOpen && exists m: nat :: LastBefore(b, m, i, {SkBeg, SkEnd, SolEnd}) && b[m].typ.SkEnd?)
    || (x == SolverIsNotOpen && exists m: nat :: LastBefore(b, m, i, {SkBeg, SkEnd, SolEnd}) && b[m].typ.SolEnd?)
  }

  ghost predicate SolverDeserves(b: seq<Brch>, i: nat, x: Status)
    requires 0 < i < |b|
  {
    || (x == SolverIsNotOpen && NoneOf(b, i, {SolBeg, SolEnd, SkEnd}))
    || (x == SolverIsOpen && exists m: nat :: LastBefore(b, m, i, {SolBeg, SolEnd, SkEnd}) && b[m].typ.SolEnd?)
    || (x == SketcherIsNotOpen && exists m: nat :: LastBefore(b, m, i, {SolBeg, SolEnd, SkEnd}) && b[m].typ.SkEnd?)
  }

  /** Branch `i` deserves to be refused for the reason `x`, if those before it are linked. */
  ghost predicate Deserved(b: seq<Brch>, i: nat, x: Status)
    requires 0 < i < |b|
  {
    var t := b[i].typ;
    || (Joins(t) && x == ExpectingTwoBodys && AtMostOneLeft(b, i))
    || (Grows(t) && x == ExpectingOneSketch && NoneLeft(b, 0, i))
    || (Transforms(t) && x == ExpectingOneBody && NoneLeft(b, 0, i))
    || (Applies(t) && x == ExpectingOneBody && SketchLeftLast(b, i))
    || (t.Dump? && x == ExpectingOneBody && OnlyMacrosLeft(b, i))
    || (t.Loft? && LoftDeserves(b, i, x))
    || (Sketches(t) && SketchDeserves(b, i, x))
    || (Solves(t) && SolverDeserves(b, i, x))
  }

  /** What is left is what is on the stack. */
  lemma LeftIsStacked(b: seq<Brch>, stack: seq<nat>, i: nat)
    requires Linked(b, stack, i)
    ensures 0 < i <= |b|
    ensures stack == [] <==> NoneLeft(b, 0, i)
    ensures stack != [] ==> 0 < Top(stack) < i && b[Top(stack)].ichld == 0 && NoneLeft(b, Top(stack), i)
    ensures forall j :: 0 < j < i ==> (b[j].ichld == 0 <==> j in stack)
  {
    forall j | 0 < j < i ensures b[j].ichld == 0 <==> j in stack {
      assert IsOpen(b, j) <==> j in stack;
    }
    forall j | j in stack ensures 0 < j < i && b[j].ichld == 0 && j <= Top(stack) {
      assert IsOpen(b, j) <==> j in stack;
    }
    if stack != [] { assert Top(stack) in stack; }
  }

  lemma TwoAreStacked(b: seq<Brch>, stack: seq<nat>, i: nat)
    requires Linked(b, stack, i)
    ensures |stack| < 2 <==> AtMostOneLeft(b, i)
  {
    hide Linked;
    LeftIsStacked(b, stack, i);
    StackSorted(b, stack, i);
    AtLeastOne(b, stack, i);
    if |stack| >= 2 { assert stack[0] in stack && stack[1] in stack; }
  }

  lemma LastIsStacked(b: seq<Brch>, stack: seq<nat>, i: nat)
    requires Linked(b, stack, i)
    ensures stack == [] || b[Top(stack)].typ.SkEnd? <==> SketchLeftLast(b, i)
  {
    hide Linked;
    LeftIsStacked(b, stack, i);
    if stack != [] {
      forall j: nat | 0 < j < i && b[j].ichld == 0 && NoneLeft(b, j, i) ensures j == Top(stack) { }
    }
  }

  lemma MacrosAreStacked(b: seq<Brch>, stack: seq<nat>, i: nat)
    requires Linked(b, stack, i)
    ensures stack == [] || b[Top(stack)].typ.MacEnd? <==> OnlyMacrosLeft(b, i)
  {
    LeftIsStacked(b, stack, i);
    if stack != [] && b[Top(stack)].typ.MacEnd? {
      assert |stack| == 1;
    }
  }

  lemma {:induction false} SizeOfSorted(s: seq<nat>, x: set<int>)
    requires Sorted(s) && forall j: int :: j in x <==> j in s
    ensures |x| == |s|
    decreases |s|
  {
    if s != [] {
      PopMembers(s);
      assert Top(s) in s;
      SizeOfSorted(Pop(s), x - {Top(s) as int});
    } else {
      assert forall j: int :: j in x ==> j in s;
      assert forall j: int :: j !in x;
      assert x == {};
    }
  }

  lemma AboveIsSorted(stack: seq<nat>, m: int)
    requires Sorted(stack)
    ensures Sorted(Above(stack, m))
  {
    hide Cut;
  }

  lemma AboveIsLeft(b: seq<Brch>, stack: seq<nat>, i: nat, m: nat)
    requires Linked(b, stack, i) && m < i
    ensures |Above(stack, m)| == |LeftAfter(b, m, i)|
    ensures Above(stack, m) == [] <==> NoneLeft(b, m, i)
  {
    hide Linked, Above, Below, Cut;
    LeftIsStacked(b, stack, i);
    StackSorted(b, stack, i);
    AtLeastOne(b, stack, i);
    CutMembers(stack, m);
    AboveIsSorted(stack, m);
    forall j ensures j in LeftAfter(b, m, i) <==> j in Above(stack, m) {
      if j in Above(stack, m) { assert 0 < j < i; }
    }
    SizeOfSorted(Above(stack, m), LeftAfter(b, m, i));
    if Above(stack, m) != [] { assert Above(stack, m)[0] in LeftAfter(b, m, i); }
  }

  lemma OneLast(c: seq<Brch>, m: nat, k: nat, i: nat, ts: set<Type>)
    requires LastBefore(c, m, i, ts) && LastBefore(c, k, i, ts)
    ensures m == k
  {
  }

  lemma LoftRefused(b: seq<Brch>, stack: seq<nat>, i: nat, x: Status)
    requires i < |b| && Linked(b, stack, i) && UpTo(stack, i) && 0 < i
    ensures LinkLoft(b, stack, i) == Bad(x) <==> LoftDeserves(b, i, x)
  {
    hide Linked, Above, Below, Nearest, LastBefore, LeftAfter, NoneLeft;
    var m := Nearest(b, i - 1, {Mark});
    NearestIsLast(b, i - 1, {Mark});
    AboveIsLeft(b, stack, i, m);
    forall k: nat | LastBefore(b, k, i, {Mark}) ensures m == k && !NoneOf(b, i, {Mark}) {
      LastIsThere(b, k, i, {Mark});
      if m > 0 { OneLast(b, m, k, i, {Mark}); }
    }
  }

  lemma LastIsThere(b: seq<Brch>, m: nat, i: nat, ts: set<Type>)
    requires LastBefore(b, m, i, ts)
    ensures 0 < m < i <= |b| && b[m].typ in ts && !NoneOf(b, i, ts)
  {
  }

  lemma SketchRefused(b: seq<Brch>, stack: seq<nat>, i: nat, x: Status)
    requires 0 < i < |b| && UpTo(stack, i)
    ensures LinkSketch(b, stack, i) == Bad(x) <==> SketchDeserves(b, i, x)
  {
    hide Nearest, LastBefore, Without;
    var ts := {SkEnd, SolEnd, SkBeg};
    assert ts == {SkBeg, SkEnd, SolEnd};
    var m := Nearest(b, i - 1, ts);
    NearestIsLast(b, i - 1, ts);
    forall k: nat | LastBefore(b, k, i, ts) ensures m == k && !NoneOf(b, i, ts) {
      LastIsThere(b, k, i, ts);
      if m > 0 { OneLast(b, m, k, i, ts); }
    }
    if m > 0 { LastIsThere(b, m, i, ts); }
  }

  lemma SolverRefused(b: seq<Brch>, stack: seq<nat>, i: nat, x: Status)
    requires 0 < i < |b| && UpTo(stack, i)
    ensures LinkSolver(b, stack, i) == Bad(x) <==> SolverDeserves(b, i, x)
  {
    hide Nearest, LastBefore, Without;
    var ts := {SolEnd, SkEnd, SolBeg};
    assert ts == {SolBeg, SolEnd, SkEnd};
    var m := Nearest(b, i - 1, ts);
    NearestIsLast(b, i - 1, ts);
    forall k: nat | LastBefore(b, k, i, ts) ensures m == k && !NoneOf(b, i, ts) {
      LastIsThere(b, k, i, ts);
      if m > 0 { OneLast(b, m, k, i, ts); }
    }
    if m > 0 { LastIsThere(b, m, i, ts); }
  }

  /** A Branch is refused, and for what, exactly when it deserves that. */
  lemma RefusedIff(b: seq<Brch>, stack: seq<nat>, i: nat, x: Status)
    requires i < |b| && Linked(b, stack, i) && 0 < i && UpTo(stack, i)
    ensures LinkOne(b, stack, i) == Bad(x) <==> Deserved(b, i, x)
  {
    hide LinkOne, Linked, LinkLoft, LinkSketch, LinkSolver, LoftDeserves, SketchDeserves, SolverDeserves,
         AtMostOneLeft, SketchLeftLast, OnlyMacrosLeft, NoneLeft;
    LinkOneByType(b, stack, i);
    AllTypes(b[i].typ);
    LeftIsStacked(b, stack, i);
    TwoAreStacked(b, stack, i);
    LastIsStacked(b, stack, i);
    MacrosAreStacked(b, stack, i);
    LoftRefused(b, stack, i, x);
    SketchRefused(b, stack, i, x);
    SolverRefused(b, stack, i, x);
  }

  /* ---- whole models ---- */

  lemma SameClaims(a: seq<Brch>, c: seq<Brch>, i: nat, p: int, n: nat)
    requires SameLinks(a, c) && Claims(a, i, p, n)
    ensures Claims(c, i, p, n)
  {
    assert forall k: nat :: k < |a| ==> c[k].typ == a[k].typ && c[k].ileft == a[k].ileft;
  }

  lemma SameClaimsOnly(a: seq<Brch>, c: seq<Brch>, i: nat, p: int, q: int)
    requires SameLinks(a, c) && ClaimsOnly(a, i, p, q)
    ensures ClaimsOnly(c, i, p, q)
  {
  }

  lemma SameEmptied(a: seq<Brch>, c: seq<Brch>, i: nat, n: nat)
    requires SameLinks(a, c) && 0 < i < n <= |a| && SatisfiedMany(a, i, n)
    ensures SatisfiedMany(c, i, n)
  {
    hide Claims;
    if c[i].typ.Loft? {
      var m: nat :| LoftedFrom(a, i, n, m);
      SameClaims(a, c, i, c[i].ileft, n);
      assert LoftedFrom(c, i, n, m);
    }
  }

  lemma SameSatisfied(a: seq<Brch>, c: seq<Brch>, i: nat, n: nat)
    requires SameLinks(a, c) && 0 < i < n <= |a| && Satisfied(a, i, n)
    ensures Satisfied(c, i, n)
  {
    hide ClaimsOnly, SatisfiedMany, TakesNone, Solves, StandsBy, Joins, TakesOneBranch, Applies, Sketches;
    SameEmptied(a, c, i, n);
    if Joins(c[i].typ) {
      SameClaims(a, c, i, c[i].ileft, n);
      SameClaims(a, c, i, c[i].irite, n);
      SameClaimsOnly(a, c, i, c[i].ileft, c[i].irite);
    }
    if TakesOneBranch(c[i].typ) {
      SameClaims(a, c, i, c[i].ileft, n);
      SameClaimsOnly(a, c, i, c[i].ileft, c[i].ileft);
    }
    if TakesNone(c[i].typ) { SameClaimsOnly(a, c, i, 0, 0); }
    if Solves(c[i].typ) { SameClaimsOnly(a, c, i, c[i].ileft, c[i].ileft); }
  }

  /** In any model that passes the check, every Branch has claimed what its type asks for. */
  lemma CheckedSatisfies(b: seq<Brch>)
    requires Passes(b)
    ensures AllSatisfied(Checked(b), |b|) && |Checked(b)| == |b|
  {
    hide LinkAll, Satisfied, Settle, Outcome;
    var a := LinksOf(b);
    LinkAllSatisfies(b, |b| - 1);
    SettleKeeps(a);
    var c := Settle(a);
    forall i: nat | 0 < i < |b| ensures Satisfied(c, i, |b|) { SameSatisfied(a, c, i, |b|); }
  }

  /** When its turn comes, Branch `i` deserves to be refused for the reason `x`. */
  ghost predicate RefusedFor(b: seq<Brch>, i: nat, x: Status) {
    0 < i < |b| && LinkAll(b, i - 1).Good? && Deserved(LinkAll(b, i - 1).b, i, x)
  }

  lemma RefusedForIff(b: seq<Brch>, i: nat, x: Status)
    requires 0 < i < |b| && LinkAll(b, i - 1).Good?
    ensures LinkAll(b, i) == Bad(x) <==> RefusedFor(b, i, x)
  {
    hide LinkOne, Deserved, Linked;
    LinkAllAdvances(b, i - 1);
    var s := LinkAll(b, i - 1);
    RefusedIff(s.b, s.stack, i, x);
  }

  lemma {:induction false} SomeRefused(b: seq<Brch>, n: nat) returns (i: nat, x: Status)
    requires n < |b| && LinkAll(b, n).Bad?
    ensures RefusedFor(b, i, x)
  {
    hide LinkOne, RefusedFor;
    if LinkAll(b, n - 1).Bad? {
      i, x := SomeRefused(b, n - 1);
    } else {
      i, x := n, LinkAll(b, n).status;
      RefusedForIff(b, i, x);
    }
  }

  /** A model passes the check if and only if no Branch deserves to be refused. */
  lemma PassesIff(b: seq<Brch>)
    requires |b| > 0
    ensures Passes(b) <==> forall i: nat, x :: !RefusedFor(b, i, x)
  {
    hide LinkAll, Deserved;
    if !Passes(b) {
      var i, x := SomeRefused(b, |b| - 1);
    }
    forall i: nat, x | RefusedFor(b, i, x) ensures !Passes(b) {
      RefusedForIff(b, i, x);
      RefusedStays(b, i, |b| - 1);
    }
  }

  /* ---- a solver takes over ---- */

  /** A model in which the beginning of a solver is an operand of a BOOLEAN. */
  predicate SolverJoined(b: seq<Brch>) {
    |b| == 5 && b[1].typ.SolBeg? && Makes(b[2].typ) && Joins(b[3].typ) && Solves(b[4].typ)
  }

  lemma SolverJoinedLinks(b: seq<Brch>)
    requires SolverJoined(b)
    ensures Passes(b)
  {
    hide LinkOne, Nearest, Without;
    LinkAllAdvances(b, 0);
    var s0 := LinkAll(b, 0);
    LinkOneByType(s0.b, s0.stack, 1);
    LinkAllAdvances(b, 1);
    var s1 := LinkAll(b, 1);
    assert s1.stack == [1];
    LinkOneByType(s1.b, s1.stack, 2);
    LinkAllAdvances(b, 2);
    var s2 := LinkAll(b, 2);
    assert s2.stack == [1, 2];
    LinkOneByType(s2.b, s2.stack, 3);
    LinkAllAdvances(b, 3);
    var s3 := LinkAll(b, 3);
    LinkOneByType(s3.b, s3.stack, 4);
    SolverIsFound(s3.b);
  }

  lemma SolverIsFound(b: seq<Brch>)
    requires SolverJoined(b)
    ensures Nearest(b, 3, {SolEnd, SkEnd, SolBeg}) == 1
  {
    assert Nearest(b, 1, {SolEnd, SkEnd, SolBeg}) == 1;
    assert Nearest(b, 2, {SolEnd, SkEnd, SolBeg}) == 1;
  }

  /** The check accepts it, and takes the left parent of the BOOLEAN away from it. */
  lemma SolverTakesOver(b: seq<Brch>)
    requires SolverJoined(b)
    ensures Passes(b) && |Checked(b)| == 5 && Checked(b)[3].ileft == 1 && Checked(b)[1].ichld == 4
  {
    hide LinkAll, Settle;
    SolverJoinedLinks(b);
    CheckedSatisfies(b);
    var c := Checked(b);
    CheckedSame(b);
    assert Satisfied(c, 3, 5) && Satisfied(c, 4, 5);
    CheckedDirected(b);
  }

  lemma CheckedSame(b: seq<Brch>)
    requires Passes(b)
    ensures |Checked(b)| == |b| && forall i :: 0 <= i < |b| ==> Checked(b)[i].typ == b[i].typ
  {
    SettleKeeps(LinksOf(b));
  }

  lemma CheckedDirected(b: seq<Brch>)
    requires Passes(b)
    ensures Directed(Checked(b), |Checked(b)|)
  {
    SettleKeeps(LinksOf(b));
  }
}

/** Models whose build goes astray: operands that are lost, and sketches that are interrupted. */
module Astray {
  import opened ActivitySpec
  import opened Basics
  import opened BodyStack
  import opened Branches
  import opened LinkSpec
  import opened LinkStack
  import opened Parents
  import opened Suppression

  /** The first `o` Branches are ACTIVE PRIMITIVEs; then come two suppressed ones, a BOOLEAN
      of the two, and a TRANSFORM of that. */
  predicate Clash(b: seq<Brch>, o: nat) {
    && |b| == o + 5
    && (forall k :: 0 < k <= o + 2 ==> b[k].Class() == Primitive && (b[k].actv == Suppressed <==> k > o))
    && b[o + 3].Class() == Boolean && b[o + 3].actv != Suppressed
    && b[o + 4].Class() == Transform && b[o + 4].actv != Suppressed
  }

  /** The numbers from 1 to `k`. */
  function Count(k: nat): (s: seq<nat>)
    ensures |s| == k && forall i :: 0 <= i < k ==> s[i] == i + 1
  {
    seq(k, i => i + 1)
  }

  lemma CountOn(k: nat)
    ensures Count(k) + [k + 1] == Count(k + 1)
    ensures Pop(Count(k + 1)) == Count(k) && Top(Count(k + 1)) == k + 1
  {
  }

  lemma EnoughIsGood(b: seq<Brch>, stack: seq<nat>, i: nat)
    requires 0 < i < |b| && UpTo(stack, i)
    ensures b[i].Class() == Primitive ==> LinkOne(b, stack, i).Good?
    ensures b[i].Class() == Transform && stack != [] ==> LinkOne(b, stack, i).Good?
    ensures b[i].Class() == Boolean && |stack| >= 2 ==> LinkOne(b, stack, i).Good?
  {
  }

  lemma ClashIsStraight(b: seq<Brch>, o: nat)
    requires Clash(b, o)
    ensures StraightLine(b) && Suppressible(b)
  {
  }

  /** One more Branch of a straight-line model that has the operands it needs. */
  lemma NextLinks(b: seq<Brch>, n: nat)
    requires StraightLine(b) && 0 < n < |b| && LinkAll(b, n - 1).Good?
    requires var s := LinkAll(b, n - 1).stack;
             || b[n].Class() == Primitive || (b[n].Class() == Transform && s != [])
             || (b[n].Class() == Boolean && |s| >= 2)
    ensures LinkAll(b, n).Good?
    ensures Moves(LinkAll(b, n).b, LinkAll(b, n - 1).stack, LinkAll(b, n).stack, n)
    ensures SameBranches(b, LinkAll(b, n).b)
  {
    hide LinkOne, Moves, Linked, InOrder, Straight;
    LinkAllAdvances(b, n - 1);
    LinkAllAdvances(b, n);
    var s := LinkAll(b, n - 1);
    EnoughIsGood(s.b, s.stack, n);
    LinkAllMoves(b, n, n);
  }

  lemma NothingLinks(b: seq<Brch>)
    requires |b| > 0
    ensures LinkAll(b, 0).Good? && LinkAll(b, 0).stack == Count(0)
  {
  }

  lemma {:induction false} ClashLinks(b: seq<Brch>, o: nat, k: nat)
    requires Clash(b, o) && k <= o + 2
    ensures LinkAll(b, k).Good? && LinkAll(b, k).stack == Count(k)
    decreases k
  {
    hide LinkAll, Without, StraightLine, Suppressible, Count;
    if k > 0 {
      ClashIsStraight(b, o);
      ClashLinks(b, o, k - 1);
      NextLinks(b, k);
      CountOn(k - 1);
    } else {
      NothingLinks(b);
    }
  }

  lemma ClashJoins(b: seq<Brch>, o: nat)
    requires Clash(b, o)
    ensures LinkAll(b, o + 3).Good? && LinkAll(b, o + 3).stack == Count(o) + [o + 3]
  {
    hide LinkAll, StraightLine, Suppressible, Count;
    ClashIsStraight(b, o);
    ClashLinks(b, o, o + 2);
    CountOn(o);
    CountOn(o + 1);
    CountSize(o + 2);
    NextLinks(b, o + 3);
  }

  lemma CountSize(k: nat)
    ensures |Count(k)| == k
  {
  }

  lemma ClashPasses(b: seq<Brch>, o: nat)
    requires Clash(b, o)
    ensures Passes(b) && StraightLine(b) && Suppressible(b)
  {
    hide LinkAll, Moves, StraightLine, Suppressible, Count;
    ClashIsStraight(b, o);
    ClashJoins(b, o);
    NextLinks(b, o + 4);
  }

  lemma ClashParents(b: seq<Brch>, o: nat)
    requires Clash(b, o)
    ensures Passes(b) && Straight(b)
    ensures var l := LinksOf(b); Clash(l, o) && l[o + 3].ileft == o + 1 && l[o + 3].irite == o + 2 && l[o + 4].ileft == o + 3
  {
    hide LinkAll, Without, Suppressible, Directed;
    ClashPasses(b, o);
    ClashLinks(b, o, o + 2);
    CountOn(o);
    CountOn(o + 1);
    LinkAllMoves(b, o + 3, o + 4);
    LinkAllMoves(b, o + 4, o + 4);
    LinksAre(b);
  }

  lemma LinksAre(b: seq<Brch>)
    requires Passes(b)
    ensures LinksOf(b) == LinkAll(b, |b| - 1).b && SameBranches(b, LinksOf(b))
  {
    hide LinkAll, Directed;
  }

  /** The BOOLEAN is skipped, the TRANSFORM is not. */
  lemma ClashActivities(l: seq<Brch>, o: nat, k: nat)
    requires Wired(l) && Clash(l, o) && 0 < k < o + 5
    requires l[o + 3].ileft == o + 1 && l[o + 3].irite == o + 2 && l[o + 4].ileft == o + 3
    ensures IsLive(l, k) <==> k <= o || k == o + 4
  {
    LiveIff(l, k);
    assert HasParent(l, o + 3, o + 1) && Gone(l, o + 1);
    assert HasParent(l, o + 4, o + 3) && !Gone(l, o + 3);
  }

  lemma {:induction false} PrimitivesAreBuilt(c: seq<Brch>, o: nat, k: nat)
    requires k <= o < |c| && forall i :: 0 < i <= o ==> c[i].Class() == Primitive && c[i].actv == Active
    ensures Build(c, k) == Some(Count(k))
    decreases k
  {
    if k > 0 {
      PrimitivesAreBuilt(c, o, k - 1);
      CountOn(k - 1);
    }
  }

  lemma TransformIsBuilt(c: seq<Brch>, o: nat)
    requires |c| == o + 5 && c[o + 4].Class() == Transform && c[o + 4].actv == Active
    requires forall i :: 0 < i <= o ==> c[i].Class() == Primitive && c[i].actv == Active
    requires c[o + 1].actv != Active && c[o + 2].actv != Active && c[o + 3].actv != Active
    ensures Build(c, o + 4) == if o == 0 then None else Some(Count(o - 1) + [o + 4])
    ensures o > 0 ==> Taken(c, Count(o), o + 4) == [[o]]
  {
    PrimitivesAreBuilt(c, o, o);
    assert Build(c, o + 1) == Some(Count(o));
    assert Build(c, o + 2) == Some(Count(o));
    assert Build(c, o + 3) == Some(Count(o));
    if o > 0 { CountOn(o - 1); }
  }

  lemma ClashIsBuilt(b: seq<Brch>, o: nat)
    requires Clash(b, o)
    ensures Passes(b) && Straight(b) && |Checked(b)| == |b|
    ensures Build(Checked(b), o + 4) == if o == 0 then None else Some(Count(o - 1) + [o + 4])
    ensures o > 0 ==> Taken(Checked(b), Count(o), o + 4) == [[o]]
  {
    hide LinkAll, Outcome, Build, Wired, Taken, IsLive, StraightLine, Suppressible, Earlier;
    ClashPasses(b, o);
    ClashParents(b, o);
    LinksAreWired(b);
    var l := LinksOf(b);
    CheckedIsSettled(b);
    forall k: nat | 0 < k < o + 5
      ensures Settle(l)[k].typ == l[k].typ && (Settle(l)[k].actv == Active <==> k <= o || k == o + 4)
    {
      SettledHere(l, k);
      ClashActivities(l, o, k);
    }
    TransformIsBuilt(Checked(b), o);
  }

  lemma ClashIsUnsound(b: seq<Brch>, o: nat)
    requires Clash(b, o) && Buildable(b)
    ensures !StaysSound(b)
  {
    hide LinkAll, Outcome, Build, StraightLine, Suppressible, Earlier;
    ClashParents(b, o);
    LinksAreWired(b);
    var l := LinksOf(b);
    LostBoth(l, o);
    assert !SoundAt(l, o + 4);
  }

  lemma LostBoth(l: seq<Brch>, o: nat)
    requires Wired(l) && Clash(l, o)
    requires l[o + 3].ileft == o + 1 && l[o + 3].irite == o + 2 && l[o + 4].ileft == o + 3
    ensures !SoundAt(l, o + 4)
  {
    hide StraightLine, Suppressible, Directed, Outcome, Earlier;
    assert HasParent(l, o + 3, o + 1) && HasParent(l, o + 3, o + 2) && HasParent(l, o + 4, o + 3);
    assert Gone(l, o + 1) && Void(l, o + 1) && Void(l, o + 2);
    assert Void(l, o + 3) && !Gone(l, o + 3) && !Trails(l, o + 4);
  }

  /** When a BOOLEAN has lost both operands, and there is no other Body, the Branch that
      takes it finds the Body stack too short. */
  lemma ClashUnderflows(b: seq<Brch>)
    requires Clash(b, 0)
    ensures Buildable(b) && Build(Checked(b), 4) == None && !StaysSound(b)
  {
    hide Clash, Passes, Count, Build, StraightLine, Suppressible, Wired, Checked, StaysSound;
    ClashPasses(b, 0);
    ClashIsBuilt(b, 0);
    ClashIsUnsound(b, 0);
  }

  /** When there is another Body, the Branch takes that one, and nothing is reported. */
  lemma ClashTakesAnother(b: seq<Brch>, o: nat)
    requires Clash(b, o) && o > 0
    ensures Buildable(b) && Build(Checked(b), o + 4) == Some(Count(o - 1) + [o + 4]) && !StaysSound(b)
    ensures |Checked(b)| == |b| && Taken(Checked(b), Count(o), o + 4) == [[o]]
  {
    hide Clash, Passes, Count, Build, StraightLine, Suppressible, Wired, Checked, StaysSound, Taken;
    ClashPasses(b, o);
    ClashIsBuilt(b, o);
    ClashIsUnsound(b, o);
  }

  /** Models that clash in this way exist, whatever comes before. */
  lemma ClashExists(o: nat) returns (b: seq<Brch>)
    ensures Clash(b, o)
  {
    var x := Brch(Box, Active, -1, -1, -1);
    b := seq(o + 1, _ => x) +
         [x.(actv := Suppressed), x.(actv := Suppressed), x.(typ := Union), x.(typ := Translate)];
  }

  /** A sketch with something else inside, and a BOOLEAN; nothing is suppressed. */
  predicate Interrupted(b: seq<Brch>) {
    && |b| == 5 && b[1].typ.SkBeg? && b[2].typ.Set? && b[3].typ.SkEnd? && b[4].Class() == Boolean
    && forall k :: 0 < k < 5 ==> b[k].actv == Active
  }

  lemma InterruptedStep(b: seq<Brch>, stack: seq<nat>, i: nat)
    requires 0 < i < |b| && UpTo(stack, i)
    ensures b[i].typ.SkBeg? ==> LinkOne(b, stack, i).Good? && LinkOne(b, stack, i).stack == stack + [i]
    ensures b[i].typ.Set? ==> LinkOne(b, stack, i).Good? && LinkOne(b, stack, i).stack == stack
    ensures b[i].Class() == Boolean && |stack| >= 2 ==> LinkOne(b, stack, i).Good?
  {
    hide LinkLoft, LinkSketch, LinkSolver, LinkMacEnd, TakeOne;
  }

  /** The end of the sketch claims the Branch before it, which is no operand. */
  lemma InterruptedEnd(b: seq<Brch>)
    requires |b| > 3 && b[1].typ.SkBeg? && b[2].typ.Set? && b[3].typ.SkEnd?
    ensures LinkOne(b, [1], 3).Good? && LinkOne(b, [1], 3).stack == [1, 3]
  {
    hide LinkLoft, LinkSolver, LinkMacEnd, TakeOne, TakeTwo, PushNew;
    assert Nearest(b, 1, {SkEnd, SolEnd, SkBeg}) == 1;
    assert Nearest(b, 2, {SkEnd, SolEnd, SkBeg}) == 1;
    assert Cut([1], 2) == 1;
    assert Without([1], 2) == [1];
  }

  /** The beginning of an interrupted sketch is never claimed, so it is taken for an operand. */
  lemma InterruptedLinks(b: seq<Brch>)
    requires Interrupted(b)
    ensures Passes(b)
  {
    hide LinkOne;
    var s0 := LinkAll(b, 0);
    InterruptedStep(s0.b, s0.stack, 1);
    LinkAllAdvances(b, 1);
    var s1 := LinkAll(b, 1);
    assert s1.stack == [1];
    InterruptedStep(s1.b, s1.stack, 2);
    LinkAllAdvances(b, 2);
    var s2 := LinkAll(b, 2);
    InterruptedEnd(s2.b);
    LinkAllAdvances(b, 3);
    var s3 := LinkAll(b, 3);
    InterruptedStep(s3.b, s3.stack, 4);
  }

  lemma InterruptedExists() returns (b: seq<Brch>)
    ensures Interrupted(b)
  {
    var x := Brch(Set, Active, -1, -1, -1);
    b := [x, x.(typ := SkBeg), x, x.(typ := SkEnd), x.(typ := Union)];
  }

  lemma InterruptedActivities(l: seq<Brch>)
    requires Directed(l, |l|) && Interrupted(l)
    ensures forall k :: 0 < k < 5 ==> Outcome(l, k) == Active
  {
    NothingReached(l, 5);
    assert MacroDepth(l, 1) == 0;
    assert MacroDepth(l, 2) == 0;
    assert MacroDepth(l, 3) == 0;
    assert MacroDepth(l, 4) == 0;
  }

  lemma FourthFindsOne(c: seq<Brch>)
    requires Interrupted(c)
    ensures Build(c, 4) == None
  {
    assert Build(c, 1) == Some([]);
    assert Build(c, 2) == Some([]);
    assert [] + [3] == [3];
    assert Build(c, 3) == Some([3]);
  }

  /** A check can succeed and the Body stack still be too short: sketches must not be interrupted. */
  lemma InterruptedUnderflows(b: seq<Brch>)
    requires Interrupted(b)
    ensures Passes(b) && Build(Checked(b), 4) == None
  {
    hide LinkAll, Outcome, Build;
    InterruptedLinks(b);
    InterruptedActivities(LinksOf(b));
    FourthFindsOne(Checked(b));
  }
}

/**
 Suppressing Branches of a straight-line model: when the Body stack stays sound, told from
 parents and suppression alone, before anything is built.
*/
module Suppression {
  import opened ActivitySpec
  import opened Basics
  import opened BodyStack
  import opened Branches
  import opened LinkSpec
  import opened LinkStack
  import opened Parents

  /** A linked straight-line model in which only forward-linked Branches are suppressed. */
  ghost predicate Wired(b: seq<Brch>) {
    StraightLine(b) && Directed(b, |b|) && TwoWay(b, |b|) && Suppressible(b) && Earlier(Settle(b))
  }

  predicate IsLive(b: seq<Brch>, i: nat)
    requires Directed(b, |b|) && 0 < i < |b|
  {
    Outcome(b, i) == Active
  }

  // ----- who is inactive, said with parents instead of walks -----

  /** Nothing is left of this operand: a suppressed PRIMITIVE, or made from one without a BOOLEAN. */
  ghost predicate Gone(b: seq<Brch>, i: nat)
    requires Wired(b) && 0 < i < |b|
    decreases i
  {
    if b[i].Class() == Primitive then b[i].actv == Suppressed
    else IsUnary(b[i].typ) && (assert HasParent(b, i, b[i].ileft); Gone(b, b[i].ileft))
  }

  /** A BOOLEAN that lost an operand. */
  ghost predicate Halved(b: seq<Brch>, i: nat)
    requires Wired(b) && 0 < i < |b|
  {
    b[i].Class() == Boolean &&
    (assert HasParent(b, i, b[i].ileft) && HasParent(b, i, b[i].irite); Gone(b, b[i].ileft) || Gone(b, b[i].irite))
  }

  /** A BOOLEAN that lost an operand, or an APPLIED Branch directly after one. */
  ghost predicate Trails(b: seq<Brch>, i: nat)
    requires Wired(b) && 0 < i < |b|
    decreases i
  {
    Halved(b, i) || (b[i].Class() == Applied && (assert HasParent(b, i, b[i].ileft); Trails(b, b[i].ileft)))
  }

  /** A Branch that is inactivated. */
  ghost predicate Dropped(b: seq<Brch>, i: nat)
    requires Wired(b) && 0 < i < |b|
  {
    Trails(b, i) || (IsUnary(b[i].typ) && (assert HasParent(b, i, b[i].ileft); Gone(b, b[i].ileft)))
  }

  /** Following the children of a Branch that trails a halved BOOLEAN meets dropped Branches only. */
  lemma {:induction false} AppliedWalkDrops(b: seq<Brch>, t: nat, k: int)
    requires Wired(b) && 0 < t < |b| && Trails(b, t) && k in AppliedWalk(b, b[t].ichld)
    ensures 0 < k < |b| && Dropped(b, k)
    decreases |b| - t
  {
    var c := b[t].ichld;
    assert HasParent(b, c, t);
    if k != c { AppliedWalkDrops(b, c, k); }
  }

  /** Following the children of something gone meets dropped Branches only. */
  lemma {:induction false} ChildWalkDrops(b: seq<Brch>, t: nat, k: int)
    requires Wired(b) && 0 < t < |b| && Gone(b, t) && k in ChildWalk(b, b[t].ichld)
    ensures 0 < k < |b| && Dropped(b, k)
    decreases |b| - t
  {
    var c := b[t].ichld;
    assert HasParent(b, c, t);
    assert !OpensSketch(b[t].typ);
    if b[c].Class() == Boolean {
      if k != c { AppliedWalkDrops(b, c, k); }
    } else {
      if k != c { ChildWalkDrops(b, c, k); }
    }
  }

  /** The suppressed PRIMITIVE because of which `t` is gone. */
  lemma {:induction false} SourceOfGone(b: seq<Brch>, t: nat) returns (p: nat)
    requires Wired(b) && 0 < t < |b| && Gone(b, t)
    ensures 0 < p < |b| && b[p].actv == Suppressed && ChildWalk(b, b[t].ichld) <= Reach(b, p)
    decreases t
  {
    if b[t].Class() == Primitive {
      p := t;
    } else {
      var l := b[t].ileft;
      assert HasParent(b, t, l);
      p := SourceOfGone(b, l);
    }
  }

  lemma {:induction false} SourceOfTrail(b: seq<Brch>, t: nat) returns (p: nat)
    requires Wired(b) && 0 < t < |b| && Trails(b, t)
    ensures 0 < p < |b| && b[p].actv == Suppressed && t in Reach(b, p) && AppliedWalk(b, b[t].ichld) <= Reach(b, p)
    decreases t
  {
    assert HasParent(b, t, b[t].ileft);
    if Halved(b, t) {
      assert HasParent(b, t, b[t].irite);
      var l := if Gone(b, b[t].ileft) then b[t].ileft else b[t].irite;
      p := SourceOfGone(b, l);
    } else {
      p := SourceOfTrail(b, b[t].ileft);
    }
  }

  /** The walks inactivate exactly the dropped Branches. */
  lemma DroppedIffReached(b: seq<Brch>, i: nat)
    requires Wired(b) && 0 < i < |b|
    ensures i in Reached(b, |b|) <==> Dropped(b, i)
  {
    ReachedIff(b, |b|, i);
    if i in Reached(b, |b|) {
      var p :| 0 < p < |b| && b[p].actv == Suppressed && i in Reach(b, p);
      ChildWalkDrops(b, p, i);
    }
    if Dropped(b, i) {
      var p;
      if Trails(b, i) {
        p := SourceOfTrail(b, i);
      } else {
        assert HasParent(b, i, b[i].ileft);
        p := SourceOfGone(b, b[i].ileft);
      }
    }
  }

  lemma LiveIff(b: seq<Brch>, i: nat)
    requires Wired(b) && 0 < i < |b|
    ensures IsLive(b, i) <==> b[i].actv != Suppressed && !Dropped(b, i)
    ensures Settle(b)[i].actv == Active <==> IsLive(b, i)
  {
    NoMacros(b, i);
    DroppedIffReached(b, i);
  }

  // ----- what is left of an operand -----

  /** No Body stands for this operand, when the model is built. */
  ghost predicate Void(b: seq<Brch>, i: nat)
    requires Wired(b) && 0 < i < |b|
    decreases i
  {
    if b[i].Class() == Primitive then b[i].actv == Suppressed
    else if IsUnary(b[i].typ) then
      assert HasParent(b, i, b[i].ileft);
      (b[i].typ.Dump? || b[i].actv == Suppressed || Dropped(b, i)) && Void(b, b[i].ileft)
    else if b[i].Class() == Boolean then
      assert HasParent(b, i, b[i].ileft) && HasParent(b, i, b[i].irite);
      Halved(b, i) && Void(b, b[i].ileft) && Void(b, b[i].irite)
    else false
  }

  lemma {:induction false} GoneIsVoid(b: seq<Brch>, i: nat)
    requires Wired(b) && 0 < i < |b| && Gone(b, i)
    ensures Void(b, i)
    decreases i
  {
    if IsUnary(b[i].typ) {
      assert HasParent(b, i, b[i].ileft);
      GoneIsVoid(b, b[i].ileft);
    }
  }

  /** The parents of Branch `i`, and that they are operands. */
  lemma ParentsOf(b: seq<Brch>, i: nat)
    requires Wired(b) && 0 < i < |b|
    ensures IsUnary(b[i].typ) ==> 0 < b[i].ileft < i && IsOperand(b[b[i].ileft].typ)
    ensures b[i].Class() == Boolean ==> 0 < b[i].ileft < i && IsOperand(b[b[i].ileft].typ)
    ensures b[i].Class() == Boolean ==> 0 < b[i].irite < i && IsOperand(b[b[i].irite].typ)
    ensures InsideSketch(b[i].typ) ==> 0 < i - 1 == b[i].ileft && OpensSketch(b[i - 1].typ)
  {
    hide Suppressible, StraightLine, Directed;
    assert EarlierAt(Settle(b), i);
    assert IsUnary(b[i].typ) || InsideSketch(b[i].typ) || b[i].Class() == Boolean ==> HasParent(b, i, b[i].ileft);
    assert b[i].Class() == Boolean ==> HasParent(b, i, b[i].irite);
  }

  /** What Void says of one Branch. */
  lemma VoidOfUnary(b: seq<Brch>, i: nat)
    requires Wired(b) && 0 < i < |b| && IsUnary(b[i].typ)
    ensures 0 < b[i].ileft < i
    ensures Void(b, i) <==> (b[i].typ.Dump? || !IsLive(b, i)) && Void(b, b[i].ileft)
  {
    hide Dropped, Outcome, Directed, Suppressible, StraightLine, Earlier;
    LiveIff(b, i);
    ParentsOf(b, i);
  }

  lemma VoidOfBoolean(b: seq<Brch>, i: nat)
    requires Wired(b) && 0 < i < |b| && b[i].Class() == Boolean
    ensures 0 < b[i].ileft < i && 0 < b[i].irite < i
    ensures Void(b, i) <==> !IsLive(b, i) && Void(b, b[i].ileft) && Void(b, b[i].irite)
    ensures !IsLive(b, i) ==> Void(b, b[i].ileft) || Void(b, b[i].irite)
  {
    hide Outcome, Gone;
    LiveIff(b, i);
    ParentsOf(b, i);
    if Halved(b, i) {
      GoneIsVoid(b, if Gone(b, b[i].ileft) then b[i].ileft else b[i].irite);
    }
  }

  lemma VoidOfOthers(b: seq<Brch>, i: nat)
    requires Wired(b) && 0 < i < |b| && (b[i].Class() == Primitive || b[i].typ.SkEnd?)
    ensures Void(b, i) <==> !IsLive(b, i)
    ensures b[i].typ.SkEnd? ==> IsLive(b, i)
  {
    LiveIff(b, i);
  }

  lemma SettledHere(b: seq<Brch>, i: nat)
    requires Wired(b) && 0 < i < |b|
    ensures |Settle(b)| == |b| && Settle(b)[i].typ == b[i].typ
    ensures Settle(b)[i].ileft == b[i].ileft && Settle(b)[i].irite == b[i].irite
    ensures Settle(b)[i].actv == Active <==> IsLive(b, i)
  {
    hide StraightLine, TwoWay, Suppressible, Outcome, Earlier;
  }

  /** Every operand is represented by one Body, or by none if it is void. */
  lemma {:induction false} RepIsVoid(b: seq<Brch>, i: nat)
    requires Wired(b) && 0 < i < |b| && IsOperand(b[i].typ)
    ensures |Rep(Settle(b), i)| == if Void(b, i) then 0 else 1
    decreases i
  {
    hide Wired, Settle, IsLive, Void, Earlier;
    EarlierSettled(b);
    var c := Settle(b);
    SettledHere(b, i);
    ParentsOf(b, i);
    if IsUnary(b[i].typ) {
      VoidOfUnary(b, i);
      RepIsVoid(b, b[i].ileft);
    } else if b[i].Class() == Boolean {
      VoidOfBoolean(b, i);
      RepIsVoid(b, b[i].ileft);
      RepIsVoid(b, b[i].irite);
    } else {
      VoidOfOthers(b, i);
    }
  }

  lemma EarlierSettled(b: seq<Brch>)
    requires Wired(b)
    ensures Directed(b, |b|) && |Settle(b)| == |b| && Earlier(Settle(b))
  {
  }

  /** Branch `i`, if it is neither suppressed nor dropped, has operands that are not void. */
  ghost predicate SoundAt(b: seq<Brch>, i: nat)
    requires Wired(b) && 0 < i < |b|
  {
    ParentsOf(b, i);
    && (IsUnary(b[i].typ) && b[i].actv != Suppressed && !Dropped(b, i) ==> !Void(b, b[i].ileft))
    && (b[i].Class() == Boolean && !Halved(b, i) ==> !Void(b, b[i].ileft) && !Void(b, b[i].irite))
  }

  ghost predicate Sound(b: seq<Brch>)
    requires Wired(b)
  {
    forall i: nat {:trigger SoundAt(b, i)} :: 0 < i < |b| ==> SoundAt(b, i)
  }

  lemma SoundHere(b: seq<Brch>, i: nat)
    requires Wired(b) && 0 < i < |b|
    ensures IsUnary(b[i].typ) ==> 0 < b[i].ileft < i && (SoundAt(b, i) <==> (IsLive(b, i) ==> !Void(b, b[i].ileft)))
    ensures b[i].Class() == Boolean ==>
              && 0 < b[i].ileft < i && 0 < b[i].irite < i
              && (SoundAt(b, i) <==> (IsLive(b, i) ==> !Void(b, b[i].ileft) && !Void(b, b[i].irite)))
    ensures !IsUnary(b[i].typ) && b[i].Class() != Boolean ==> SoundAt(b, i)
  {
    hide Void;
    LiveIff(b, i);
    ParentsOf(b, i);
  }

  lemma ServedIffSoundAt(b: seq<Brch>, i: nat)
    requires Wired(b) && 0 < i < |b|
    ensures |Settle(b)| == |b| && Earlier(Settle(b))
    ensures ServedAt(Settle(b), i) <==> SoundAt(b, i)
  {
    hide Wired, Settle, IsLive, Void, Earlier, SoundAt, Rep, ServedAt;
    EarlierSettled(b);
    var c := Settle(b);
    SettledHere(b, i);
    SoundHere(b, i);
    ParentsOf(b, i);
    if IsUnary(b[i].typ) {
      UnaryServed(c, i);
      RepIsVoid(b, b[i].ileft);
    } else if b[i].Class() == Boolean {
      BooleanServed(c, i);
      RepIsVoid(b, b[i].ileft);
      RepIsVoid(b, b[i].irite);
    } else {
      if InsideSketch(b[i].typ) { SettledHere(b, i - 1); }
      OthersServed(c, i);
    }
  }

  lemma OthersServed(c: seq<Brch>, i: nat)
    requires Earlier(c) && 0 < i < |c| && !IsUnary(c[i].typ) && c[i].Class() != Boolean
    requires InsideSketch(c[i].typ) ==> i > 1 && !IsOperand(c[i - 1].typ)
    ensures ServedAt(c, i)
  {
    hide Earlier;
  }

  // ----- models -----

  /** A checked straight-line model, with only forward-linked Branches suppressed. */
  ghost predicate Buildable(b: seq<Brch>) {
    Passes(b) && StraightLine(b) && Suppressible(b)
  }

  lemma LinksAreWired(b: seq<Brch>)
    requires Buildable(b)
    ensures Wired(LinksOf(b))
  {
    hide LinkOne, GoodStack, Tracks, Outcome, Earlier;
    LinkAllSteps(b, |b| - 1);
    CheckedIsEarlier(b);
  }

  /** No ACTIVE Branch of the model takes an operand of which nothing is left. */
  ghost predicate StaysSound(b: seq<Brch>)
    requires Buildable(b)
  {
    LinksAreWired(b);
    Sound(LinksOf(b))
  }

  /** The build follows the links all the way if and only if no ACTIVE Branch takes an
      operand of which nothing is left; which is known before the build. */
  lemma FollowsIffSound(b: seq<Brch>)
    requires Buildable(b)
    ensures Follows(b) <==> StaysSound(b)
  {
    hide Follows, Checked, Passes, Wired, SoundAt, ServedAt, Suppressible, Earlier, LinksOf, Settle;
    LinksAreWired(b);
    var l := LinksOf(b);
    CheckedIsSettled(b);
    FollowsIffServed(b);
    forall i: nat | 0 < i < |l| ensures ServedAt(Settle(l), i) <==> SoundAt(l, i) { ServedIffSoundAt(l, i); }
  }

  lemma CheckedIsSettled(b: seq<Brch>)
    requires Passes(b) && Straight(b)
    ensures Directed(LinksOf(b), |LinksOf(b)|) && Checked(b) == Settle(LinksOf(b)) && |LinksOf(b)| == |b| == |Checked(b)|
    ensures Earlier(Checked(b))
  {
    hide LinkAll, Outcome, Directed;
    CheckedIsEarlier(b);
  }

  // ----- without a BOOLEAN that loses both operands -----

  /** No BOOLEAN loses both its operands. */
  ghost predicate NoClash(b: seq<Brch>)
    requires Wired(b)
  {
    forall i :: 0 < i < |b| && b[i].Class() == Boolean ==> !LosesBoth(b, i)
  }

  ghost predicate LosesBoth(b: seq<Brch>, i: nat)
    requires Wired(b) && 0 < i < |b| && b[i].Class() == Boolean
  {
    assert HasParent(b, i, b[i].ileft) && HasParent(b, i, b[i].irite);
    Gone(b, b[i].ileft) && Gone(b, b[i].irite)
  }

  /** Then whatever is void is gone. */
  lemma {:induction false} VoidIffGone(b: seq<Brch>, i: nat)
    requires Wired(b) && NoClash(b) && 0 < i < |b| && IsOperand(b[i].typ)
    ensures Void(b, i) <==> Gone(b, i)
    decreases i
  {
    ParentsOf(b, i);
    if IsUnary(b[i].typ) {
      VoidIffGone(b, b[i].ileft);
    } else if b[i].Class() == Boolean {
      assert !LosesBoth(b, i);
      VoidIffGone(b, b[i].ileft);
      VoidIffGone(b, b[i].irite);
    }
  }

  /** Branch `i` is represented by exactly one Body, or by none if it is gone. */
  ghost predicate WellRepresented(b: seq<Brch>, i: nat)
    requires Wired(b) && 0 < i < |b|
  {
    |Rep(Settle(b), i)| == if Gone(b, i) then 0 else 1
  }

  /** Each skipped BOOLEAN is replaced by its other operand, and everything else that
      is not gone by one Body, if and only if no BOOLEAN loses both operands. */
  lemma RepresentedIffNoClash(b: seq<Brch>)
    requires Wired(b)
    ensures NoClash(b) <==> forall i :: 0 < i < |b| && IsOperand(b[i].typ) ==> WellRepresented(b, i)
  {
    hide Wired, Gone, Void, Rep, LosesBoth;
    if NoClash(b) {
      forall i | 0 < i < |b| && IsOperand(b[i].typ) ensures WellRepresented(b, i) {
        VoidIffGone(b, i);
        RepIsVoid(b, i);
      }
    }
    forall i | 0 < i < |b| && b[i].Class() == Boolean && LosesBoth(b, i)
      ensures !WellRepresented(b, i)
    {
      ClashIsVisible(b, i);
    }
  }

  lemma ClashIsVisible(b: seq<Brch>, i: nat)
    requires Wired(b) && 0 < i < |b| && b[i].Class() == Boolean && LosesBoth(b, i)
    ensures !WellRepresented(b, i)
  {
    ParentsOf(b, i);
    GoneIsVoid(b, b[i].ileft);
    GoneIsVoid(b, b[i].irite);
    RepIsVoid(b, i);
  }

  lemma NoClashIsSound(b: seq<Brch>)
    requires Wired(b) && NoClash(b)
    ensures Sound(b)
  {
    hide Wired, Void, LosesBoth;
    forall i: nat | 0 < i < |b| ensures SoundAt(b, i) {
      ParentsOf(b, i);
      if IsUnary(b[i].typ) {
        VoidIffGone(b, b[i].ileft);
      } else if b[i].Class() == Boolean {
        VoidIffGone(b, b[i].ileft);
        VoidIffGone(b, b[i].irite);
      }
    }
  }

  ghost predicate Clashless(b: seq<Brch>)
    requires Buildable(b)
  {
    LinksAreWired(b);
    NoClash(LinksOf(b))
  }

  /** Without such a BOOLEAN, the Body stack is at any point of the build just what stands
      for the operands that linking has there. */
  lemma BuildFollowsLinks(b: seq<Brch>, k: nat)
    requires Buildable(b) && Clashless(b) && k < |b|
    ensures FollowsAt(b, k)
  {
    hide FollowsAt, Straight, Suppressible, StraightLine, LinkAll, Wired, NoClash, Sound;
    LinksAreWired(b);
    NoClashIsSound(LinksOf(b));
    FollowsIffSound(b);
  }

  /** With nothing suppressed nothing is gone: the stack is never too short. */
  lemma {:induction false} NothingIsGone(b: seq<Brch>, i: nat)
    requires Wired(b) && 0 < i < |b| && forall j :: 0 < j < |b| ==> b[j].actv != Suppressed
    ensures !Gone(b, i)
    decreases i
  {
    if IsUnary(b[i].typ) {
      assert HasParent(b, i, b[i].ileft);
      NothingIsGone(b, b[i].ileft);
    }
  }

  lemma NothingClashes(b: seq<Brch>)
    requires Wired(b) && forall j :: 0 < j < |b| ==> b[j].actv != Suppressed
    ensures NoClash(b)
  {
    hide Wired, Gone;
    forall i | 0 < i < |b| && b[i].Class() == Boolean ensures !LosesBoth(b, i) {
      ParentsOf(b, i);
      NothingIsGone(b, b[i].ileft);
    }
  }

  lemma NothingSuppressed(b: seq<Brch>)
    requires Passes(b) && StraightLine(b) && forall j :: 0 < j < |b| ==> b[j].actv != Suppressed
    ensures Buildable(b) && forall j :: 0 < j < |LinksOf(b)| ==> LinksOf(b)[j].actv != Suppressed
  {
    hide LinkAll, Directed;
  }

  /** With nothing suppressed no Branch ever meets a Body stack that is too short. */
  lemma AllActiveNeverUnderflows(b: seq<Brch>, k: nat)
    requires Passes(b) && StraightLine(b) && k < |b| && forall j :: 0 < j < |b| ==> b[j].actv != Suppressed
    ensures FollowsAt(b, k) && Build(Checked(b), k).Some?
  {
    hide Buildable, Checked, Wired, NoClash, LinksOf, Passes, Reps;
    NothingSuppressed(b);
    LinksAreWired(b);
    NothingClashes(LinksOf(b));
    BuildFollowsLinks(b, k);
  }
}

/** Which models are programs: those whose patterns nest, inside and outside of macros, and
    whose macros do not. */
module Nesting {
  import opened Branches
  import opened JumpMachine
  import opened Structured
  import ActivitySpec
  import Builds

  /** From Branch `p` on all patterns and macros are closed in the right order, if a macro
      (`inMacro`) and `d` patterns are open there. */
  predicate WellNested(b: seq<Brch>, p: nat, inMacro: bool, d: nat)
    requires p <= |b|
    decreases |b| - p
  {
    if p == |b| then !inMacro && d == 0
    else
      match b[p].typ
      case MacBeg => !inMacro && d == 0 && WellNested(b, p + 1, true, 0)
      case MacEnd => inMacro && d == 0 && WellNested(b, p + 1, false, 0)
      case PatBeg => WellNested(b, p + 1, inMacro, d + 1)
      case PatEnd => d > 0 && WellNested(b, p + 1, inMacro, d - 1)
      case _ => WellNested(b, p + 1, inMacro, d)
  }

  /** No patbeg of the program is left open. */
  predicate Closed(g: Program) {
    match g
    case End => true
    case Then(_, rest) => Closed(rest)
    case Def(_, rest) => Closed(rest)
    case Open(_) => false
  }

  /* ---- a closed program is well nested ---- */

  lemma {:induction false} StmtNests(b: seq<Brch>, p: nat, s: Stmt, inMacro: bool, d: nat)
    requires SpellsStmt(b, p, s)
    ensures WellNested(b, p, inMacro, d) <==> WellNested(b, p + Size(s), inMacro, d)
    decreases s
  {
    hide Spells, Length;
    match s
    case Plain =>
    case Call =>
    case Loop(body) => BlockNests(b, p + 1, body, inMacro, d + 1);
  }

  lemma {:induction false} BlockNests(b: seq<Brch>, p: nat, block: Block, inMacro: bool, d: nat)
    requires Spells(b, p, block)
    ensures WellNested(b, p, inMacro, d) <==> WellNested(b, p + Length(block), inMacro, d)
    decreases block
  {
    hide WellNested, SpellsStmt;
    match block
    case Nil =>
    case Cons(h, t) =>
      StmtNests(b, p, h, inMacro, d);
      BlockNests(b, p + Size(h), t, inMacro, d);
  }

  lemma {:induction false} ProgramNests(b: seq<Brch>, p: nat, g: Program)
    requires SpellsProgram(b, p, g) && Closed(g)
    ensures p <= |b| && WellNested(b, p, false, 0)
    decreases g
  {
    hide SpellsStmt, Spells, Size, Length;
    match g
    case End =>
    case Then(s, rest) =>
      StmtFits(b, p, s);
      StmtNests(b, p, s, false, 0);
      ProgramNests(b, p + Size(s), rest);
    case Def(body, rest) =>
      BlockNests(b, p + 1, body, true, 0);
      ProgramNests(b, p + 2 + Length(body), rest);
  }

  lemma StmtFits(b: seq<Brch>, p: nat, s: Stmt)
    requires SpellsStmt(b, p, s)
    ensures p + Size(s) <= |b|
  {
  }

  /* ---- what is well nested is a program ---- */

  predicate Stops(b: seq<Brch>, q: nat) {
    q == |b| || (q < |b| && b[q].typ in {MacBeg, MacEnd, PatEnd})
  }

  /** What being well nested says about the next Branch. */
  lemma NextNests(b: seq<Brch>, p: nat, inMacro: bool, d: nat)
    requires p < |b| && WellNested(b, p, inMacro, d)
    ensures b[p].typ.MacBeg? ==> !inMacro && d == 0 && WellNested(b, p + 1, true, 0)
    ensures b[p].typ.MacEnd? ==> inMacro && d == 0 && WellNested(b, p + 1, false, 0)
    ensures b[p].typ.PatBeg? ==> WellNested(b, p + 1, inMacro, d + 1)
    ensures b[p].typ.PatEnd? ==> d > 0 && WellNested(b, p + 1, inMacro, d - 1)
    ensures b[p].typ !in {MacBeg, MacEnd, PatBeg, PatEnd} ==> WellNested(b, p + 1, inMacro, d)
  {
  }

  lemma NothingOpen(b: seq<Brch>, inMacro: bool, d: nat)
    requires WellNested(b, |b|, inMacro, d)
    ensures !inMacro && d == 0
  {
  }

  lemma ConsSpells(b: seq<Brch>, p: nat, h: Stmt, t: Block)
    requires SpellsStmt(b, p, h) && Spells(b, p + Size(h), t)
    ensures Spells(b, p, Cons(h, t)) && Length(Cons(h, t)) == Size(h) + Length(t)
  {
    hide Spells, SpellsStmt, Size, Length;
    SpellsCons(b, p, h, t);
    LengthOfCons(h, t);
  }

  lemma LoopSpells(b: seq<Brch>, p: nat, body: Block)
    requires p < |b| && b[p].typ.PatBeg? && Spells(b, p + 1, body)
    requires p + 1 + Length(body) < |b| && b[p + 1 + Length(body)].typ.PatEnd?
    ensures SpellsStmt(b, p, Loop(body)) && Size(Loop(body)) == Length(body) + 2
  {
    hide Spells, Length;
  }

  /** The longest block that starts at Branch `p`. */
  lemma {:induction false} TakeBlock(b: seq<Brch>, p: nat, inMacro: bool, d: nat) returns (block: Block, q: nat)
    requires p <= |b| && WellNested(b, p, inMacro, d)
    ensures Spells(b, p, block) && q == p + Length(block) && Stops(b, q) && WellNested(b, q, inMacro, d)
    decreases |b| - p
  {
    hide WellNested, Spells, SpellsStmt, Length, Size;
    if Stops(b, p) {
      EmptySpells(b, p);
      block, q := Nil, p;
    } else {
      NextNests(b, p, inMacro, d);
      var h, rest;
      if b[p].typ.PatBeg? {
        var body, r := TakeBlock(b, p + 1, inMacro, d + 1);
        if r == |b| { NothingOpen(b, inMacro, d + 1); }
        NextNests(b, r, inMacro, d + 1);
        LoopSpells(b, p, body);
        h := Loop(body);
        rest, q := TakeBlock(b, r + 1, inMacro, d);
      } else {
        h := if b[p].typ.Recall? then Call else Plain;
        SimpleSpells(b, p);
        rest, q := TakeBlock(b, p + 1, inMacro, d);
      }
      ConsSpells(b, p, h, rest);
      block := Cons(h, rest);
    }
  }

  lemma EmptySpells(b: seq<Brch>, p: nat)
    requires p <= |b|
    ensures Spells(b, p, Nil) && Length(Nil) == 0
  {
  }

  lemma SimpleSpells(b: seq<Brch>, p: nat)
    requires p < |b| && !Stops(b, p) && !b[p].typ.PatBeg?
    ensures SpellsStmt(b, p, if b[p].typ.Recall? then Call else Plain) && Size(Call) == Size(Plain) == 1
  {
  }

  /** The statements of a block, and then a program. */
  function Prepend(block: Block, g: Program): Program {
    match block
    case Nil => g
    case Cons(h, t) => Then(h, Prepend(t, g))
  }

  lemma {:induction false} PrependSpells(b: seq<Brch>, p: nat, block: Block, g: Program)
    requires Spells(b, p, block) && SpellsProgram(b, p + Length(block), g)
    ensures SpellsProgram(b, p, Prepend(block, g)) && (Closed(g) ==> Closed(Prepend(block, g)))
    decreases block
  {
    hide SpellsStmt, Size;
    match block
    case Nil =>
    case Cons(h, t) => PrependSpells(b, p + Size(h), t, g);
  }

  lemma NothingSpells(b: seq<Brch>)
    ensures SpellsProgram(b, |b|, End)
  {
  }

  lemma DefSpells(b: seq<Brch>, p: nat, body: Block, rest: Program)
    requires p + 1 + Length(body) < |b| && b[p].typ.MacBeg? && Spells(b, p + 1, body)
    requires b[p + 1 + Length(body)].typ.MacEnd? && SpellsProgram(b, p + 2 + Length(body), rest)
    ensures SpellsProgram(b, p, Def(body, rest))
  {
    hide Spells, SpellsStmt, Length, Size;
  }

  lemma {:induction false} TakeProgram(b: seq<Brch>, p: nat) returns (g: Program)
    requires p <= |b| && WellNested(b, p, false, 0)
    ensures SpellsProgram(b, p, g) && Closed(g)
    decreases |b| - p
  {
    hide Spells, WellNested, Length, SpellsProgram, Prepend;
    var block, q := TakeBlock(b, p, false, 0);
    var rest := End;
    NothingSpells(b);
    if q < |b| {
      NextNests(b, q, false, 0);
      var body, r := TakeBlock(b, q + 1, true, 0);
      if r == |b| { NothingOpen(b, true, 0); }
      NextNests(b, r, true, 0);
      var more := TakeProgram(b, r + 1);
      rest := Def(body, more);
      DefSpells(b, q, body, more);
    }
    PrependSpells(b, p, block, rest);
    g := Prepend(block, rest);
  }

  /** A model is a program with nothing left open if and only if its patterns and macros are
      well nested. */
  lemma ProgramIffWellNested(b: seq<Brch>)
    requires |b| > 0
    ensures (exists g :: SpellsProgram(b, 1, g) && Closed(g)) <==> WellNested(b, 1, false, 0)
  {
    hide SpellsProgram, WellNested;
    if WellNested(b, 1, false, 0) {
      var g := TakeProgram(b, 1);
    }
    forall g | SpellsProgram(b, 1, g) && Closed(g) ensures WellNested(b, 1, false, 0) {
      ProgramNests(b, 1, g);
    }
  }

  /** So any well-nested model that passes the check, with nothing suppressed, is built as
      the program that it is. */
  lemma WellNestedModelIsBuilt(b: seq<Brch>, m: Model) returns (g: Program, n: nat)
    requires ActivitySpec.Passes(b) && m.brch == ActivitySpec.Checked(b) && WellNested(b, 1, false, 0)
    requires forall j :: 0 <= j < |b| ==> b[j].actv != Suppressed
    ensures SpellsProgram(b, 1, g) && Closed(g)
    ensures Builds.Finishes(m, Start(m), n, ExecProgram(m, 1, g, map[], 0, []))
  {
    hide ActivitySpec.Passes, ActivitySpec.Checked, WellNested, SpellsProgram, ExecProgram, Builds.Finishes;
    Builds.CheckedHasSameKinds(b);
    g := TakeProgram(b, 1);
    n := Builds.BuildOfCheckedModel(b, m, g);
  }
}

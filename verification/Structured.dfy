/**
 The programs that patterns and macros stand for: nested loops and calls, run by
 recursion. `p` is always the Branch at which a piece of program starts.
*/
module Structured {
  import opened Basics
  import opened Branches
  import opened JumpMachine

  datatype Stmt = Plain | Loop(body: Block) | Call
  datatype Block = Nil | Cons(head: Stmt, tail: Block)

  /** A patbeg that no patend matches opens something that is never closed. */
  datatype Program =
    | End
    | Then(stmt: Stmt, rest: Program)
    | Def(body: Block, rest: Program)
    | Open(rest: Program)

  /** A stored macro: its macbeg and its body. */
  datatype Macro = Macro(ibrch: nat, body: Block)

  datatype Outcome = Outcome(trace: seq<Event>, status: RunStatus)

  predicate IsControl(t: Type) {
    t in {MacBeg, MacEnd, Recall, PatBeg, PatEnd}
  }

  function Size(s: Stmt): nat {
    match s
    case Loop(body) => Length(body) + 2
    case _ => 1
  }

  /** How many Branches a block takes. */
  function Length(b: Block): nat {
    match b
    case Nil => 0
    case Cons(h, t) => Size(h) + Length(t)
  }

  /** The Branches from `p` on spell the statement `s`. */
  predicate SpellsStmt(b: seq<Brch>, p: nat, s: Stmt)
    decreases s
  {
    && p + Size(s) <= |b|
    && match s
       case Plain => !IsControl(b[p].typ)
       case Loop(body) => b[p].typ.PatBeg? && Spells(b, p + 1, body) && b[p + 1 + Length(body)].typ.PatEnd?
       case Call => b[p].typ.Recall?
  }

  predicate Spells(b: seq<Brch>, p: nat, block: Block)
    decreases block
  {
    && p + Length(block) <= |b|
    && match block
       case Nil => true
       case Cons(h, t) => SpellsStmt(b, p, h) && Spells(b, p + Size(h), t)
  }

  lemma LengthOfCons(h: Stmt, rest: Block)
    ensures Length(Cons(h, rest)) == Size(h) + Length(rest)
  {
    hide Size;
  }

  lemma SpellsCons(b: seq<Brch>, p: nat, h: Stmt, rest: Block)
    ensures Spells(b, p, Cons(h, rest)) <==> SpellsStmt(b, p, h) && Spells(b, p + Size(h), rest)
  {
    hide SpellsStmt, Size, Length;
    LengthOfCons(h, rest);
  }

  /** The Branches from `p` to the last one spell the program. */
  predicate SpellsProgram(b: seq<Brch>, p: nat, g: Program)
    decreases g
  {
    match g
    case End => p == |b|
    case Then(s, rest) => SpellsStmt(b, p, s) && SpellsProgram(b, p + Size(s), rest)
    case Def(body, rest) =>
      && p + 2 + Length(body) <= |b| && b[p].typ.MacBeg?
      && Spells(b, p + 1, body) && b[p + 1 + Length(body)].typ.MacEnd?
      && SpellsProgram(b, p + 2 + Length(body), rest)
    case Open(rest) => p < |b| && b[p].typ.PatBeg? && SpellsProgram(b, p + 1, rest)
  }

  /** A Branch that is to be executed, now or when its macro is recalled. */
  predicate Live(m: Model, p: nat)
    requires p < |m.brch|
  {
    m.brch[p].actv in {Active, Deferred}
  }

  /** Run a statement inside of `d` loops and calls, after the events `t`. */
  function ExecStmt(m: Model, p: nat, s: Stmt, env: map<int, Macro>, d: nat, t: seq<Event>): Outcome
    requires d <= MAX_NUM_PATTERNS
    decreases MAX_NUM_PATTERNS - d, 0, s
  {
    if p < |m.brch| && !Live(m, p) then Outcome(t, Running)
    else
      match Arg(m, p, t)
      case None => Outcome(t, Failed(BranchFailed))
      case Some(v) =>
        match s
        case Plain => Outcome(t + [Ran(p)], Running)
        case Loop(body) =>
          if d >= MAX_NUM_PATTERNS then Outcome(t, Failed(PatternsNestedTooDeeply))
          else Copies(m, p, body, env, d + 1, 1, v, t)
        case Call =>
          if v < 1 || v > MAX_NUM_MACROS then Outcome(t, Failed(IllegalMacroIndex))
          else if v !in env then Outcome(t, Failed(NothingPreviouslyStored))
          else if d >= MAX_NUM_PATTERNS then Outcome(t, Failed(Overrun))
          else Exec(m, env[v].ibrch + 1, env[v].body, env, d + 1, t)
  }

  /** Run the statements of a block one after another, until one fails. */
  function Exec(m: Model, p: nat, b: Block, env: map<int, Macro>, d: nat, t: seq<Event>): Outcome
    requires d <= MAX_NUM_PATTERNS
    decreases MAX_NUM_PATTERNS - d, 0, b
  {
    match b
    case Nil => Outcome(t, Running)
    case Cons(h, rest) =>
      var r := ExecStmt(m, p, h, env, d, t);
      if r.status.Running? then Exec(m, p + Size(h), rest, env, d, r.trace) else r
  }

  /** For `i` up to `n`: give the iterator the value `i` and run the body of the loop. */
  function Copies(m: Model, p: nat, body: Block, env: map<int, Macro>, d: nat, i: int, n: int, t: seq<Event>): Outcome
    requires d <= MAX_NUM_PATTERNS
    decreases MAX_NUM_PATTERNS - d, 1, n + 1 - i
  {
    if i > n then Outcome(t, Running)
    else
      var r := Exec(m, p + 1, body, env, d, t + [Assigned(Iterator(m, p), i)]);
      if r.status.Running? then Copies(m, p, body, env, d, i + 1, n, r.trace) else r
  }

  /** Run a program: macro definitions only store their bodies. What comes after an open
      patbeg is run once, with 1 for its iterator and one frame less to spare; if there are
      to be no copies, the loop looks for Branch 0. */
  function ExecProgram(m: Model, p: nat, g: Program, env: map<int, Macro>, d: nat, t: seq<Event>): Outcome
    requires d <= MAX_NUM_PATTERNS
    decreases g
  {
    match g
    case End => Outcome(t, Running)
    case Then(s, rest) =>
      var r := ExecStmt(m, p, s, env, d, t);
      if r.status.Running? then ExecProgram(m, p + Size(s), rest, env, d, r.trace) else r
    case Def(body, rest) => (
      match Arg(m, p, t)
      case None => Outcome(t, Failed(BranchFailed))
      case Some(v) =>
        if v < 1 || v > MAX_NUM_MACROS then Outcome(t, Failed(IllegalMacroIndex))
        else if v in env then Outcome(t, Failed(StorageAlreadyUsed))
        else ExecProgram(m, p + 2 + Length(body), rest, env[v := Macro(p, body)], d, t))
    case Open(rest) =>
      match Arg(m, p, t)
      case None => Outcome(t, Failed(BranchFailed))
      case Some(v) =>
        if d >= MAX_NUM_PATTERNS then Outcome(t, Failed(PatternsNestedTooDeeply))
        else if v < 1 then Outcome(t, Failed(Overrun))
        else ExecProgram(m, p + 1, rest, env, d + 1, t + [Assigned(Iterator(m, p), 1)])
  }

  /* ---- one frame less to spare ---- */

  /** A run that did not need its last frame. */
  predicate HadRoom(r: Outcome) {
    r.status != Failed(PatternsNestedTooDeeply) && r.status != Failed(Overrun)
  }

  lemma {:induction false} StmtWithRoom(m: Model, p: nat, s: Stmt, env: map<int, Macro>, d: nat, t: seq<Event>)
    requires d < MAX_NUM_PATTERNS && HadRoom(ExecStmt(m, p, s, env, d + 1, t))
    ensures ExecStmt(m, p, s, env, d, t) == ExecStmt(m, p, s, env, d + 1, t)
    decreases MAX_NUM_PATTERNS - d, 0, s
  {
    hide Arg, Iterator;
    var v := Arg(m, p, t);
    if (p >= |m.brch| || Live(m, p)) && v.Some? && d + 1 < MAX_NUM_PATTERNS {
      match s
      case Plain =>
      case Loop(body) => CopiesWithRoom(m, p, body, env, d + 1, 1, v.value, t);
      case Call =>
        if 1 <= v.value <= MAX_NUM_MACROS && v.value in env {
          BlockWithRoom(m, env[v.value].ibrch + 1, env[v.value].body, env, d + 1, t);
        }
    }
  }

  lemma {:induction false} BlockWithRoom(m: Model, p: nat, b: Block, env: map<int, Macro>, d: nat, t: seq<Event>)
    requires d < MAX_NUM_PATTERNS && HadRoom(Exec(m, p, b, env, d + 1, t))
    ensures Exec(m, p, b, env, d, t) == Exec(m, p, b, env, d + 1, t)
    decreases MAX_NUM_PATTERNS - d, 0, b
  {
    hide ExecStmt;
    match b
    case Nil =>
    case Cons(h, rest) =>
      StmtWithRoom(m, p, h, env, d, t);
      var r := ExecStmt(m, p, h, env, d, t);
      if r.status.Running? { BlockWithRoom(m, p + Size(h), rest, env, d, r.trace); }
  }

  lemma {:induction false} CopiesWithRoom(m: Model, p: nat, body: Block, env: map<int, Macro>, d: nat,
                                          i: int, n: int, t: seq<Event>)
    requires d < MAX_NUM_PATTERNS && HadRoom(Copies(m, p, body, env, d + 1, i, n, t))
    ensures Copies(m, p, body, env, d, i, n, t) == Copies(m, p, body, env, d + 1, i, n, t)
    decreases MAX_NUM_PATTERNS - d, 1, n + 1 - i
  {
    hide Exec, Iterator;
    if i <= n {
      var t' := t + [Assigned(Iterator(m, p), i)];
      BlockWithRoom(m, p + 1, body, env, d, t');
      var r := Exec(m, p + 1, body, env, d, t');
      if r.status.Running? { CopiesWithRoom(m, p, body, env, d, i + 1, n, r.trace); }
    }
  }

  lemma {:induction false} ProgramWithRoom(m: Model, p: nat, g: Program, env: map<int, Macro>, d: nat, t: seq<Event>)
    requires d < MAX_NUM_PATTERNS && HadRoom(ExecProgram(m, p, g, env, d + 1, t))
    ensures ExecProgram(m, p, g, env, d, t) == ExecProgram(m, p, g, env, d + 1, t)
    decreases g
  {
    hide Arg, Iterator, ExecStmt;
    match g
    case End =>
    case Then(s, rest) =>
      StmtWithRoom(m, p, s, env, d, t);
      var r := ExecStmt(m, p, s, env, d, t);
      if r.status.Running? { ProgramWithRoom(m, p + Size(s), rest, env, d, r.trace); }
    case Def(body, rest) =>
      var v := Arg(m, p, t);
      if v.Some? && 1 <= v.value <= MAX_NUM_MACROS && v.value !in env {
        ProgramWithRoom(m, p + 2 + Length(body), rest, env[v.value := Macro(p, body)], d, t);
      }
    case Open(rest) =>
      var v := Arg(m, p, t);
      if v.Some? && v.value >= 1 && d + 1 < MAX_NUM_PATTERNS {
        ProgramWithRoom(m, p + 1, rest, env, d + 1, t + [Assigned(Iterator(m, p), 1)]);
      }
  }

  /** As long as there are frames to spare, an open patbeg with copies to make does nothing
      but give its iterator the value 1. */
  lemma OpenOnlyAssigns(m: Model, p: nat, rest: Program, env: map<int, Macro>, d: nat, t: seq<Event>)
    requires d <= MAX_NUM_PATTERNS && Arg(m, p, t).Some? && Arg(m, p, t).value >= 1
    requires HadRoom(ExecProgram(m, p, Open(rest), env, d, t))
    ensures ExecProgram(m, p, Open(rest), env, d, t) ==
            ExecProgram(m, p + 1, rest, env, d, t + [Assigned(Iterator(m, p), 1)])
  {
    hide Arg, Iterator;
    ProgramWithRoom(m, p + 1, rest, env, d, t + [Assigned(Iterator(m, p), 1)]);
  }

  /* ---- how deep loops may nest ---- */

  function Max(a: nat, b: nat): nat { if a < b then b else a }

  /** How many loops are inside of one another. */
  function StmtDepth(s: Stmt): nat {
    match s
    case Loop(body) => 1 + BlockDepth(body)
    case _ => 0
  }

  function BlockDepth(b: Block): nat {
    match b
    case Nil => 0
    case Cons(h, t) => Max(StmtDepth(h), BlockDepth(t))
  }

  function ProgramDepth(g: Program): nat {
    match g
    case End => 0
    case Then(s, rest) => Max(StmtDepth(s), ProgramDepth(rest))
    case Def(_, rest) => ProgramDepth(rest)
    case Open(rest) => ProgramDepth(rest)
  }

  /** Neither macros nor patbegs that are never closed. */
  predicate OnlyLoops(g: Program) {
    match g
    case End => true
    case Then(_, rest) => OnlyLoops(rest)
    case _ => false
  }

  const TOO_DEEP := Failed(PatternsNestedTooDeeply)

  lemma {:induction false} ShallowStmt(m: Model, p: nat, s: Stmt, d: nat, t: seq<Event>)
    requires d + StmtDepth(s) <= 10
    ensures ExecStmt(m, p, s, map[], d, t).status != TOO_DEEP
    decreases MAX_NUM_PATTERNS - d, 0, s
  {
    hide Arg, Iterator;
    var v := Arg(m, p, t);
    if s.Loop? && v.Some? { ShallowCopies(m, p, s.body, d + 1, 1, v.value, t); }
  }

  lemma {:induction false} ShallowBlock(m: Model, p: nat, b: Block, d: nat, t: seq<Event>)
    requires d + BlockDepth(b) <= 10
    ensures Exec(m, p, b, map[], d, t).status != TOO_DEEP
    decreases MAX_NUM_PATTERNS - d, 0, b
  {
    hide ExecStmt;
    if b.Cons? {
      ShallowStmt(m, p, b.head, d, t);
      var r := ExecStmt(m, p, b.head, map[], d, t);
      if r.status.Running? { ShallowBlock(m, p + Size(b.head), b.tail, d, r.trace); }
    }
  }

  lemma {:induction false} ShallowCopies(m: Model, p: nat, body: Block, d: nat, i: int, n: int, t: seq<Event>)
    requires d + BlockDepth(body) <= 10
    ensures Copies(m, p, body, map[], d, i, n, t).status != TOO_DEEP
    decreases MAX_NUM_PATTERNS - d, 1, n + 1 - i
  {
    hide Exec, Iterator;
    if i <= n {
      var t' := t + [Assigned(Iterator(m, p), i)];
      ShallowBlock(m, p + 1, body, d, t');
      var r := Exec(m, p + 1, body, map[], d, t');
      if r.status.Running? { ShallowCopies(m, p, body, d, i + 1, n, r.trace); }
    }
  }

  /** Loops that nest ten deep at most are never refused for being nested too deeply. */
  lemma {:induction false} ShallowProgram(m: Model, p: nat, g: Program, t: seq<Event>)
    requires OnlyLoops(g) && ProgramDepth(g) <= 10
    ensures ExecProgram(m, p, g, map[], 0, t).status != TOO_DEEP
    decreases g
  {
    hide ExecStmt;
    if g.Then? {
      ShallowStmt(m, p, g.stmt, 0, t);
      var r := ExecStmt(m, p, g.stmt, map[], 0, t);
      if r.status.Running? { ShallowProgram(m, p + Size(g.stmt), g.rest, r.trace); }
    }
  }

  /** Every Branch is executed whenever it is reached, and every loop makes a copy. */
  ghost predicate Eager(m: Model) {
    && (forall p: nat :: p < |m.brch| ==> Live(m, p))
    && (forall p: nat, t :: m.eval(p, t).Some? && m.eval(p, t).value >= 1)
  }

  predicate NoCallsIn(s: Stmt) {
    match s
    case Plain => true
    case Call => false
    case Loop(body) => NoCallsInside(body)
  }

  predicate NoCallsInside(b: Block) {
    match b
    case Nil => true
    case Cons(h, t) => NoCallsIn(h) && NoCallsInside(t)
  }

  predicate LoopsWithoutCalls(g: Program) {
    match g
    case End => true
    case Then(s, rest) => NoCallsIn(s) && LoopsWithoutCalls(rest)
    case _ => false
  }

  /** How a piece of a program ends whose loops nest `k` deep inside of `d` others. */
  function DeepEnd(k: nat, d: nat): RunStatus {
    if d + k > 10 then TOO_DEEP else Running
  }

  lemma {:induction false} EagerStmt(m: Model, p: nat, s: Stmt, d: nat, t: seq<Event>)
    requires Eager(m) && NoCallsIn(s) && d <= 10
    ensures ExecStmt(m, p, s, map[], d, t).status == DeepEnd(StmtDepth(s), d)
    decreases MAX_NUM_PATTERNS - d, 0, s
  {
    if s.Loop? && d < 10 { EagerCopies(m, p, s.body, d + 1, 1, Arg(m, p, t).value, t); }
  }

  lemma {:induction false} EagerBlock(m: Model, p: nat, b: Block, d: nat, t: seq<Event>)
    requires Eager(m) && NoCallsInside(b) && d <= 10
    ensures Exec(m, p, b, map[], d, t).status == DeepEnd(BlockDepth(b), d)
    decreases MAX_NUM_PATTERNS - d, 0, b
  {
    hide ExecStmt, Eager;
    if b.Cons? {
      EagerStmt(m, p, b.head, d, t);
      var r := ExecStmt(m, p, b.head, map[], d, t);
      if r.status.Running? { EagerBlock(m, p + Size(b.head), b.tail, d, r.trace); }
    }
  }

  lemma {:induction false} EagerCopies(m: Model, p: nat, body: Block, d: nat, i: int, n: int, t: seq<Event>)
    requires Eager(m) && NoCallsInside(body) && d <= 10
    ensures i <= n ==> Copies(m, p, body, map[], d, i, n, t).status == DeepEnd(BlockDepth(body), d)
    decreases MAX_NUM_PATTERNS - d, 1, n + 1 - i
  {
    hide Exec, Iterator, Eager;
    if i <= n {
      var t' := t + [Assigned(Iterator(m, p), i)];
      EagerBlock(m, p + 1, body, d, t');
      var r := Exec(m, p + 1, body, map[], d, t');
      if r.status.Running? { EagerCopies(m, p, body, d, i + 1, n, r.trace); }
    }
  }

  /** If every loop makes a copy, the program is refused for being nested too deeply just
      when more than ten of its loops are inside of one another; else it ends well. */
  lemma {:induction false} EagerProgram(m: Model, p: nat, g: Program, t: seq<Event>)
    requires Eager(m) && LoopsWithoutCalls(g)
    ensures ExecProgram(m, p, g, map[], 0, t).status == DeepEnd(ProgramDepth(g), 0)
    decreases g
  {
    hide ExecStmt, Eager;
    if g.Then? {
      EagerStmt(m, p, g.stmt, 0, t);
      var r := ExecStmt(m, p, g.stmt, map[], 0, t);
      if r.status.Running? { EagerProgram(m, p + Size(g.stmt), g.rest, r.trace); }
    }
  }

  /* ---- what a loop of ordinary Branches leaves in the trace ---- */

  /** `k` ordinary Branches. */
  function Row(k: nat): Block { if k == 0 then Nil else Cons(Plain, Row(k - 1)) }

  /** The Branches from `p` on were executed, `k` of them. */
  function RanRow(p: nat, k: nat): seq<Event>
    decreases k
  {
    if k == 0 then [] else [Ran(p)] + RanRow(p + 1, k - 1)
  }

  /** The copies of a loop over the `k` Branches behind the patbeg `p`, from the `i`-th on. */
  function Repeated(m: Model, p: nat, k: nat, i: int, n: int): seq<Event>
    decreases n + 1 - i
  {
    if i > n then [] else [Assigned(m.pmtr(p), i)] + RanRow(p + 1, k) + Repeated(m, p, k, i + 1, n)
  }

  /** Whatever has happened, Branch `q` does not fail. */
  ghost predicate Surely(m: Model, q: nat) {
    q < |m.brch| && Live(m, q) && forall t :: m.eval(q, t).Some?
  }

  ghost predicate NeverFails(m: Model, p: nat, k: nat) {
    forall q: nat :: p <= q < p + k ==> Surely(m, q)
  }

  lemma {:induction false} RowRuns(m: Model, p: nat, k: nat, d: nat, t: seq<Event>)
    requires NeverFails(m, p, k) && d <= MAX_NUM_PATTERNS
    ensures Exec(m, p, Row(k), map[], d, t) == Outcome(t + RanRow(p, k), Running)
    decreases k
  {
    if k > 0 {
      assert Surely(m, p) && m.eval(p, t).Some?;
      RowRuns(m, p + 1, k - 1, d, t + [Ran(p)]);
      Assoc(t, [Ran(p)], RanRow(p + 1, k - 1));
    } else {
      assert t + [] == t;
    }
  }

  lemma {:induction false} RowsRepeat(m: Model, p: nat, k: nat, d: nat, i: int, n: int, t: seq<Event>)
    requires NeverFails(m, p + 1, k) && d <= MAX_NUM_PATTERNS
    ensures Copies(m, p, Row(k), map[], d, i, n, t) == Outcome(t + Repeated(m, p, k, i, n), Running)
    decreases n + 1 - i
  {
    hide Exec, NeverFails;
    if i <= n {
      var a, b := [Assigned(m.pmtr(p), i)], RanRow(p + 1, k);
      RowRuns(m, p + 1, k, d, t + a);
      RowsRepeat(m, p, k, d, i + 1, n, t + a + b);
      Assoc(t, a, b);
      Assoc(t, a + b, Repeated(m, p, k, i + 1, n));
    } else {
      assert t + [] == t;
    }
  }

  /** A loop over ordinary Branches gives its own Parameter the values from 1 up to the
      number of copies that its patbeg asks for when it is reached, and runs the Branches
      after each. */
  lemma LoopTrace(m: Model, p: nat, k: nat, t: seq<Event>)
    requires NeverFails(m, p + 1, k) && p < |m.brch| && Live(m, p) && m.eval(p, t).Some?
    ensures ExecStmt(m, p, Loop(Row(k)), map[], 0, t) == Outcome(t + Repeated(m, p, k, 1, m.eval(p, t).value), Running)
  {
    RowsRepeat(m, p, k, 1, 1, m.eval(p, t).value, t);
  }

  /* ---- the jumps of the Branch loop are those of the structured program ---- */

  lemma SearchStep(b: seq<Brch>, q: nat, i: nat)
    requires q < |b| && i > 0
    ensures b[q].typ.PatBeg? ==> MatchEnd(b, q, i) == MatchEnd(b, q + 1, i + 1)
    ensures b[q].typ.PatEnd? ==> MatchEnd(b, q, i) == if i == 1 then q else MatchEnd(b, q + 1, i - 1)
    ensures !b[q].typ.PatBeg? && !b[q].typ.PatEnd? ==> MatchEnd(b, q, i) == MatchEnd(b, q + 1, i)
  {
  }

  /** Skipping over a statement, a search for a patend ends where it would have. */
  lemma {:induction false} SearchSkipsStmt(b: seq<Brch>, p: nat, s: Stmt, i: nat)
    requires SpellsStmt(b, p, s) && i > 0
    ensures MatchEnd(b, p, i) == MatchEnd(b, p + Size(s), i)
    decreases s
  {
    hide MatchEnd, Spells, Length;
    SearchStep(b, p, i);
    match s
    case Plain =>
    case Call =>
    case Loop(body) =>
      SearchSkips(b, p + 1, body, i + 1);
      SearchStep(b, p + 1 + Length(body), i + 1);
  }

  lemma {:induction false} SearchSkips(b: seq<Brch>, p: nat, block: Block, i: nat)
    requires Spells(b, p, block) && i > 0
    ensures MatchEnd(b, p, i) == MatchEnd(b, p + Length(block), i)
    decreases block
  {
    hide MatchEnd, SpellsStmt;
    match block
    case Nil =>
    case Cons(h, t) =>
      SearchSkipsStmt(b, p, h, i);
      SearchSkips(b, p + Size(h), t, i);
  }

  /** A patbeg finds the patend of its own loop. */
  lemma FindsItsPatend(b: seq<Brch>, p: nat, body: Block)
    requires SpellsStmt(b, p, Loop(body))
    ensures MatchEnd(b, p + 1, 1) == p + 1 + Length(body)
  {
    hide MatchEnd, Spells;
    SearchSkips(b, p + 1, body, 1);
    SearchStep(b, p + 1 + Length(body), 1);
  }

  lemma SearchSkipsDef(b: seq<Brch>, p: nat, body: Block, i: nat)
    requires i > 0 && p + 2 + Length(body) <= |b| && b[p].typ.MacBeg? && Spells(b, p + 1, body)
    requires b[p + 1 + Length(body)].typ.MacEnd?
    ensures MatchEnd(b, p, i) == MatchEnd(b, p + 2 + Length(body), i)
  {
    hide MatchEnd, Spells, Length;
    SearchStep(b, p, i);
    SearchSkips(b, p + 1, body, i);
    SearchStep(b, p + 1 + Length(body), i);
  }

  /** From the start of a program on there is no patend for anything that is open. */
  lemma {:induction false} NoPatendIsLeft(b: seq<Brch>, p: nat, g: Program, i: nat)
    requires SpellsProgram(b, p, g) && i > 0
    ensures p <= |b| && MatchEnd(b, p, i) == -1
    decreases g
  {
    hide MatchEnd, Spells, SpellsStmt, Size, Length;
    match g
    case End => NothingToSearch(b, i);
    case Then(s, rest) =>
      StmtIsInside(b, p, s);
      SearchSkipsStmt(b, p, s, i);
      NoPatendIsLeft(b, p + Size(s), rest, i);
    case Def(body, rest) =>
      SearchSkipsDef(b, p, body, i);
      NoPatendIsLeft(b, p + 2 + Length(body), rest, i);
    case Open(rest) =>
      SearchStep(b, p, i);
      NoPatendIsLeft(b, p + 1, rest, i + 1);
  }

  lemma NothingToSearch(b: seq<Brch>, i: nat)
    requires i > 0
    ensures MatchEnd(b, |b|, i) == -1
  {
  }

  lemma StmtIsInside(b: seq<Brch>, p: nat, s: Stmt)
    requires SpellsStmt(b, p, s)
    ensures p + Size(s) <= |b|
  {
  }
}

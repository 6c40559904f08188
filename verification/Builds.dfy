/** Whole builds: of a freshly checked model, and of one that was built before. */
module Builds {
  import ActivitySpec
  import opened Basics
  import opened Branches
  import opened JumpMachine
  import opened Jumps
  import LinkStack
  import opened Structured

  /** What a check leaves behind: of the Branches to be executed just those inside of a
      macro are deferred, and no Branch that jumps was suppressed or inactivated. */
  ghost predicate Fresh(m: Model) {
    forall i: nat {:trigger FreshAt(m, i)} :: 0 < i < |m.brch| ==> FreshAt(m, i)
  }

  ghost predicate FreshAt(m: Model, i: nat)
    requires i < |m.brch|
  {
    && (IsControl(m.brch[i].typ) ==> Live(m, i))
    && (Live(m, i) ==> (m.brch[i].actv == Deferred <==> ActivitySpec.MacroDepth(m.brch, i) > 0))
  }

  predicate MacroFree(b: seq<Brch>, lo: nat, hi: nat) {
    hi <= |b| && forall i :: lo <= i < hi ==> !b[i].typ.MacBeg? && !b[i].typ.MacEnd?
  }

  lemma {:induction false} StmtIsMacroFree(b: seq<Brch>, p: nat, s: Stmt)
    requires SpellsStmt(b, p, s)
    ensures MacroFree(b, p, p + Size(s))
    decreases s
  {
    match s
    case Plain =>
    case Call =>
    case Loop(body) => BlockIsMacroFree(b, p + 1, body);
  }

  lemma {:induction false} BlockIsMacroFree(b: seq<Brch>, p: nat, block: Block)
    requires Spells(b, p, block)
    ensures MacroFree(b, p, p + Length(block))
    decreases block
  {
    match block
    case Nil =>
    case Cons(h, t) =>
      StmtIsMacroFree(b, p, h);
      BlockIsMacroFree(b, p + Size(h), t);
  }

  lemma {:induction false} DepthStays(b: seq<Brch>, lo: nat, hi: nat)
    requires 0 < lo <= hi && MacroFree(b, lo, hi)
    ensures forall i: nat {:trigger ActivitySpec.MacroDepth(b, i)} :: lo <= i <= hi ==>
              ActivitySpec.MacroDepth(b, i) == ActivitySpec.MacroDepth(b, lo)
    decreases hi
  {
    if lo < hi {
      DepthStays(b, lo, hi - 1);
      assert ActivitySpec.MacroDepth(b, hi) == ActivitySpec.MacroDepth(b, hi - 1);
    }
  }

  ghost predicate Untouched(m: Model, a: seq<Brch>, lo: nat) {
    |a| == |m.brch| && forall i :: lo <= i < |a| ==> a[i] == m.brch[i]
  }

  /** Branches of the program itself are awake from the start. */
  lemma TopLevelIsAwake(m: Model, a: seq<Brch>, lo: nat, hi: nat)
    requires Fresh(m) && Untouched(m, a, lo) && 0 < lo <= hi <= |a|
    requires forall i: nat {:trigger ActivitySpec.MacroDepth(m.brch, i)} :: lo <= i < hi ==>
              ActivitySpec.MacroDepth(m.brch, i) == 0
    ensures Awake(m, a, lo, hi)
  {
    hide Arg, Iterator, ActivitySpec.MacroDepth;
    forall i: nat | lo <= i < hi ensures AwakeAt(m, a, i) {
      assert FreshAt(m, i);
      assert ActivitySpec.MacroDepth(m.brch, i) == 0;
    }
  }

  /** The first time past a macro its Branches are only awakened. */
  lemma {:induction false} PassesOver(m: Model, s: State, hi: nat) returns (a: seq<Brch>)
    requires Fresh(m) && s.Sized(m) && s.status == Running && 0 < s.pc <= hi <= |m.brch|
    requires Untouched(m, s.brch, s.pc)
    requires forall i: nat {:trigger ActivitySpec.MacroDepth(m.brch, i)} :: s.pc <= i < hi ==>
              ActivitySpec.MacroDepth(m.brch, i) > 0
    ensures Run(m, s, hi - s.pc) == s.(pc := hi, brch := a)
    ensures |a| == |m.brch| && Awake(m, a, s.pc, hi) && Untouched(m, a, hi)
    ensures forall i :: 0 <= i < s.pc ==> a[i] == s.brch[i]
    decreases hi - s.pc
  {
    hide Arg, Iterator, Run, ActivitySpec.MacroDepth;
    if s.pc == hi {
      a := s.brch;
      NoTurns(m, s);
    } else {
      var p: nat := s.pc;
      assert FreshAt(m, p) && ActivitySpec.MacroDepth(m.brch, p) > 0;
      RunOne(m, s);
      var r := Step(m, s);
      assert r == s.(brch := r.brch, pc := p + 1) && AwakeAt(m, r.brch, p);
      a := PassesOver(m, r, hi);
      RunOn(m, s, 1, hi - p - 1);
      forall i: nat | p <= i < hi ensures AwakeAt(m, a, i) {
        if i == p { assert a[p] == r.brch[p]; }
      }
    }
  }

  /** All macros of the environment end before Branch `p`. */
  ghost predicate Before(env: map<int, Macro>, p: nat) {
    forall v {:trigger env[v]} :: v in env ==> env[v].ibrch + 2 + Length(env[v].body) <= p
  }

  /** Macros stay stored while later Branches awake. */
  lemma StillHolds(m: Model, a: seq<Brch>, a': seq<Brch>, macros: seq<int>, env: map<int, Macro>, p: nat)
    requires Holds(m, a, macros, env) && Before(env, p) && |a'| == |a|
    requires forall i :: 0 <= i < p && i < |a| ==> a'[i] == a[i]
    ensures Holds(m, a', macros, env)
  {
    hide Arg, Iterator, Spells;
    forall v | v in env ensures Stored(m, a', env[v]) {
      var c := env[v];
      assert Stored(m, a, c);
      var lo, hi := c.ibrch + 1, c.ibrch + 2 + Length(c.body);
      forall i: nat | lo <= i < hi ensures AwakeAt(m, a', i) {
        assert AwakeAt(m, a, i);
      }
    }
  }

  /** The loop is about to run the program `g`, macros stored so far being in `env`. */
  ghost predicate AtProgram(m: Model, s: State, g: Program, env: map<int, Macro>) {
    && s.Sized(m) && s.status == Running && 0 < s.pc <= |m.brch|
    && Fresh(m) && SameKinds(m.brch, s.brch) && Untouched(m, s.brch, s.pc)
    && Awake(m, s.brch, 1, s.pc) && Holds(m, s.brch, s.macros, env) && Before(env, s.pc)
    && SpellsProgram(m.brch, s.pc, g) && ActivitySpec.MacroDepth(m.brch, s.pc) == 0
  }

  /** After `n` turns the loop has stopped, having done what `out` says; if nothing
      failed, all Branches are awake. */
  ghost predicate Finishes(m: Model, s: State, n: nat, out: Outcome)
    requires s.Sized(m) && |m.brch| > 0
  {
    var r := Run(m, s, n);
    && Halted(m, r) && r.trace == out.trace && r.status == out.status
    && (out.status == Running ==> Awake(m, r.brch, 1, |m.brch|) && r.brch[0] == s.brch[0])
  }

  lemma FinishesOn(m: Model, s: State, n: nat, r: State, k: nat, out: Outcome)
    requires |m.brch| > 0 && s.Sized(m) && Run(m, s, n) == r && Finishes(m, r, k, out) && r.brch[0] == s.brch[0]
    ensures Finishes(m, s, n + k, out)
  {
    hide Arg, Iterator, Run;
    RunOn(m, s, n, k);
  }

  /** The program is over when the Branches are. */
  lemma {:induction false} ProgramRuns(m: Model, s: State, g: Program, env: map<int, Macro>) returns (n: nat)
    requires AtProgram(m, s, g, env)
    ensures Finishes(m, s, n, ExecProgram(m, s.pc, g, env, |s.patn|, s.trace))
    decreases g
  {
    hide Arg, Iterator, Run, Step, Fresh, Holds, Spells, SpellsStmt, ExecStmt, Before, Finishes, Awake, SameKinds,
         Untouched, Length, Size;
    match g
    case End =>
      n := 0;
      NothingLeft(m, s, env);
    case Then(h, rest) =>
      n := StmtOfProgramRuns(m, s, h, rest, env);
      var r := ExecStmt(m, s.pc, h, env, |s.patn|, s.trace);
      if r.status == Running {
        var s' := s.(pc := s.pc + Size(h), trace := r.trace);
        var k := ProgramRuns(m, s', rest, env);
        FinishesOn(m, s, n, s', k, ExecProgram(m, s'.pc, rest, env, |s.patn|, r.trace));
        n := n + k;
      }
    case Def(body, rest) =>
      var v := Arg(m, s.pc, s.trace);
      if v.None? || v.value < 1 || v.value > MAX_NUM_MACROS || v.value in env {
        n := 1;
        DefIsRefused(m, s, body, rest, env);
      } else {
        var s';
        n, s' := DefRuns(m, s, body, rest, env, v.value);
        var env' := env[v.value := Macro(s.pc, body)];
        var k := ProgramRuns(m, s', rest, env');
        FinishesOn(m, s, n, s', k, ExecProgram(m, s'.pc, rest, env', |s.patn|, s.trace));
        n := n + k;
      }
    case Open(rest) =>
      var v := Arg(m, s.pc, s.trace);
      if v.None? || |s.patn| >= MAX_NUM_PATTERNS || v.value < 1 {
        n := 2;
        OpenIsRefused(m, s, rest, env);
      } else {
        var s' := Opened(m, s, v.value);
        OpenRuns(m, s, rest, env);
        var k := ProgramRuns(m, s', rest, env);
        FinishesOn(m, s, 1, s', k, ExecProgram(m, s'.pc, rest, env, |s'.patn|, s'.trace));
        n := 1 + k;
      }
  }

  lemma NothingLeft(m: Model, s: State, env: map<int, Macro>)
    requires AtProgram(m, s, End, env)
    ensures Finishes(m, s, 0, Outcome(s.trace, Running))
  {
    hide Arg, Iterator, Fresh, Holds, Awake, Step;
  }

  lemma AwakeBoth(m: Model, a: seq<Brch>, lo: nat, mid: nat, hi: nat)
    requires Awake(m, a, lo, mid) && Awake(m, a, mid, hi)
    ensures Awake(m, a, lo, hi)
  {
    hide Arg, Iterator, AwakeAt;
  }

  lemma NextStmt(m: Model, s: State, h: Stmt, rest: Program, env: map<int, Macro>)
    requires AtProgram(m, s, Then(h, rest), env)
    ensures var hi := s.pc + Size(h);
            && SpellsStmt(m.brch, s.pc, h) && hi <= |m.brch| == |s.brch| && SpellsProgram(m.brch, hi, rest)
            && ActivitySpec.MacroDepth(m.brch, s.pc) == 0 && Awake(m, s.brch, 1, s.pc) && Fresh(m)
            && Untouched(m, s.brch, s.pc) && 0 < s.pc
  {
    hide Holds, Fresh, Awake, SameKinds, Untouched, Before, ActivitySpec.MacroDepth, Spells;
  }

  lemma StmtIsAwake(m: Model, s: State, h: Stmt, rest: Program, env: map<int, Macro>)
    requires AtProgram(m, s, Then(h, rest), env)
    ensures var hi := s.pc + Size(h);
            && SpellsStmt(m.brch, s.pc, h) && hi <= |m.brch| && SpellsProgram(m.brch, hi, rest)
            && ActivitySpec.MacroDepth(m.brch, hi) == 0 && Awake(m, s.brch, s.pc, hi) && Awake(m, s.brch, 1, hi)
  {
    hide AtProgram, SpellsStmt, SpellsProgram, Fresh, Untouched, Awake, Size;
    NextStmt(m, s, h, rest, env);
    var p: nat, hi: nat := s.pc, s.pc + Size(h);
    StmtIsMacroFree(m.brch, p, h);
    DepthStays(m.brch, p, hi);
    assert ActivitySpec.MacroDepth(m.brch, hi) == 0;
    TopLevelIsAwake(m, s.brch, p, hi);
    AwakeBoth(m, s.brch, 1, p, hi);
  }

  lemma BeforeLater(env: map<int, Macro>, p: nat, q: nat)
    requires Before(env, p) && p <= q
    ensures Before(env, q)
  {
  }

  lemma UntouchedLater(m: Model, a: seq<Brch>, p: nat, q: nat)
    requires Untouched(m, a, p) && p <= q
    ensures Untouched(m, a, q)
  {
  }

  lemma StmtIsReady(m: Model, s: State, h: Stmt, rest: Program, env: map<int, Macro>)
    requires AtProgram(m, s, Then(h, rest), env)
    ensures ReadyFor(m, s, h, env)
  {
    hide Fresh, Holds, SpellsStmt, SpellsProgram, Awake, SameKinds, Untouched, Before, Size;
    StmtIsAwake(m, s, h, rest, env);
  }

  /** What will hold after the next statement. */
  lemma ProgramGoesOn(m: Model, s: State, h: Stmt, rest: Program, env: map<int, Macro>, s': State)
    requires AtProgram(m, s, Then(h, rest), env) && s' == s.(pc := s.pc + Size(h), trace := s'.trace)
    ensures AtProgram(m, s', rest, env)
  {
    hide Fresh, Holds, SpellsStmt, ActivitySpec.MacroDepth, SpellsProgram, Awake, SameKinds, Untouched, Before, Size;
    StmtIsAwake(m, s, h, rest, env);
    BeforeLater(env, s.pc, s'.pc);
    UntouchedLater(m, s.brch, s.pc, s'.pc);
  }

  /** A statement of the program is done, or fails, after finitely many turns. */
  lemma StmtOfProgramRuns(m: Model, s: State, h: Stmt, rest: Program, env: map<int, Macro>) returns (n: nat)
    requires AtProgram(m, s, Then(h, rest), env)
    ensures var out := ExecStmt(m, s.pc, h, env, |s.patn|, s.trace);
            if out.status == Running then
              var s' := s.(pc := s.pc + Size(h), trace := out.trace);
              Run(m, s, n) == s' && AtProgram(m, s', rest, env)
            else Finishes(m, s, n, out)
  {
    hide Run, Step, ExecStmt, ReadyFor, Fresh, Holds, Awake, SpellsProgram, SameKinds, Untouched, Before;
    StmtIsReady(m, s, h, rest, env);
    ProgramGoesOn(m, s, h, rest, env, s.(pc := s.pc + Size(h), trace := ExecStmt(m, s.pc, h, env, |s.patn|, s.trace).trace));
    n := StmtRuns(m, s, h, env);
  }

  /** A macro that cannot be stored ends the build. */
  lemma DefIsRefused(m: Model, s: State, body: Block, rest: Program, env: map<int, Macro>)
    requires AtProgram(m, s, Def(body, rest), env)
    requires var v := Arg(m, s.pc, s.trace); v.None? || v.value < 1 || v.value > MAX_NUM_MACROS || v.value in env
    ensures Finishes(m, s, 1, ExecProgram(m, s.pc, Def(body, rest), env, |s.patn|, s.trace))
  {
    var v := Arg(m, s.pc, s.trace);
    if v.Some? { InEnvironment(m, s.brch, s.macros, env, v.value); }
    assert FreshAt(m, s.pc);
    hide Arg, Iterator, Run, Fresh, Holds, Awake, Spells, Stored, ActivitySpec.MacroDepth;
    RunOne(m, s);
  }

  lemma DepthInMacro(b: seq<Brch>, p: nat, body: Block)
    requires 0 < p && p + 2 + Length(body) <= |b| && b[p].typ.MacBeg? && Spells(b, p + 1, body)
    requires b[p + 1 + Length(body)].typ.MacEnd? && ActivitySpec.MacroDepth(b, p) == 0
    ensures forall i: nat {:trigger ActivitySpec.MacroDepth(b, i)} :: p < i < p + 2 + Length(body) ==>
              ActivitySpec.MacroDepth(b, i) == 1
    ensures ActivitySpec.MacroDepth(b, p + 2 + Length(body)) == 0
  {
    BlockIsMacroFree(b, p + 1, body);
    DepthStays(b, p + 1, p + 1 + Length(body));
    assert ActivitySpec.MacroDepth(b, p + 1) == 1;
    assert ActivitySpec.MacroDepth(b, p + 1 + Length(body)) == 1;
  }

  /** One turn stores the macro. */
  lemma MacBegStores(m: Model, s: State, body: Block, rest: Program, env: map<int, Macro>, v: int)
    requires AtProgram(m, s, Def(body, rest), env) && Arg(m, s.pc, s.trace) == Some(v)
    requires 1 <= v <= MAX_NUM_MACROS && v !in env
    ensures Run(m, s, 1) == s.(macros := s.macros[v := s.pc], pc := s.pc + 1)
    ensures AwakeAt(m, s.brch, s.pc)
  {
    InEnvironment(m, s.brch, s.macros, env, v);
    assert FreshAt(m, s.pc);
    hide Arg, Iterator, Run, Fresh, Holds, Awake, Spells, Stored;
    RunOne(m, s);
  }

  lemma HoldsMore(m: Model, a: seq<Brch>, macros: seq<int>, env: map<int, Macro>, v: int, c: Macro)
    requires Holds(m, a, macros, env) && 1 <= v <= MAX_NUM_MACROS && v !in env && Stored(m, a, c)
    ensures Holds(m, a, macros[v := c.ibrch], env[v := c])
  {
    hide Arg, Iterator, Stored;
  }

  lemma StoredMacro(m: Model, a: seq<Brch>, p: nat, body: Block, rest: Program)
    requires p > 0 && SpellsProgram(m.brch, p, Def(body, rest)) && Awake(m, a, p + 1, p + 2 + Length(body))
    ensures Stored(m, a, Macro(p, body))
  {
    hide Arg, Iterator, Spells, Awake;
  }

  /** The macro is stored. */
  lemma DefIsStored(m: Model, before: seq<Brch>, macros: seq<int>, p: nat, c: Macro, rest: Program,
                    env: map<int, Macro>, v: int, a: seq<Brch>)
    requires Holds(m, before, macros, env) && Before(env, p) && SpellsProgram(m.brch, p, Def(c.body, rest))
    requires c.ibrch == p > 0 && 1 <= v <= MAX_NUM_MACROS && v !in env && |a| == |before|
    requires Awake(m, a, p + 1, p + 2 + Length(c.body))
    requires forall i :: 0 <= i < p && i < |a| ==> a[i] == before[i]
    ensures Holds(m, a, macros[v := p], env[v := c])
    ensures Before(env[v := c], p + 2 + Length(c.body))
  {
    hide Holds, Spells, Awake, Before, SpellsProgram, Stored, Length;
    BeforeMore(env, p, v, c);
    StoredMacro(m, a, p, c.body, rest);
    StillHolds(m, before, a, macros, env, p);
    HoldsMore(m, a, macros, env, v, c);
  }

  lemma BeforeMore(env: map<int, Macro>, p: nat, v: int, c: Macro)
    requires Before(env, p) && p <= c.ibrch
    ensures Before(env[v := c], c.ibrch + 2 + Length(c.body))
  {
    hide Arg, Iterator, Length;
  }

  /** All up to the macend is awake. */
  lemma DefIsAwake(m: Model, s: State, hi: nat, a: seq<Brch>)
    requires 0 < s.pc < |s.brch| == |m.brch| == |a| && SameKinds(m.brch, s.brch) && Awake(m, s.brch, 1, s.pc)
    requires AwakeAt(m, s.brch, s.pc) && Awake(m, a, s.pc + 1, hi) && Untouched(m, a, hi)
    requires forall i :: 0 <= i < s.pc + 1 ==> a[i] == s.brch[i]
    ensures Awake(m, a, 1, hi) && SameKinds(m.brch, a)
  {
    forall i: nat | 1 <= i < hi ensures AwakeAt(m, a, i) {
      if i <= s.pc { assert AwakeAt(m, s.brch, i) && a[i] == s.brch[i]; }
    }
    forall i | 0 <= i < |a| ensures a[i].typ == m.brch[i].typ {
      if 0 < i < hi { assert AwakeAt(m, a, i); } else if i == 0 { assert a[0] == s.brch[0]; }
    }
  }

  lemma AtRest(m: Model, s: State, body: Block, rest: Program, env: map<int, Macro>, s': State, env': map<int, Macro>)
    requires AtProgram(m, s, Def(body, rest), env)
    requires s' == s.(pc := s.pc + 2 + Length(body), macros := s'.macros, brch := s'.brch) && s'.Sized(m)
    requires SameKinds(m.brch, s'.brch) && Untouched(m, s'.brch, s'.pc) && Awake(m, s'.brch, 1, s'.pc)
    requires Holds(m, s'.brch, s'.macros, env') && Before(env', s'.pc) && ActivitySpec.MacroDepth(m.brch, s'.pc) == 0
    ensures AtProgram(m, s', rest, env')
  {
    hide Arg, Iterator, Fresh, Holds, Spells, ActivitySpec.MacroDepth, Awake, SameKinds, Untouched, Before, Length;
  }

  lemma DefShape(m: Model, s: State, body: Block, rest: Program, env: map<int, Macro>)
    requires AtProgram(m, s, Def(body, rest), env)
    ensures s.Sized(m) && s.status == Running && 0 < s.pc && s.pc + 2 + Length(body) <= |m.brch| == |s.brch| && Fresh(m)
    ensures SameKinds(m.brch, s.brch) && Untouched(m, s.brch, s.pc + 1) && Awake(m, s.brch, 1, s.pc)
    ensures Holds(m, s.brch, s.macros, env) && Before(env, s.pc) && SpellsProgram(m.brch, s.pc, Def(body, rest))
  {
    hide Fresh, Holds, Before, Awake, SameKinds, Untouched, ActivitySpec.MacroDepth, Spells;
    UntouchedLater(m, s.brch, s.pc, s.pc + 1);
  }

  lemma DefDepth(m: Model, s: State, body: Block, rest: Program, env: map<int, Macro>)
    requires AtProgram(m, s, Def(body, rest), env)
    ensures forall i: nat {:trigger ActivitySpec.MacroDepth(m.brch, i)} :: s.pc < i < s.pc + 2 + Length(body) ==>
              ActivitySpec.MacroDepth(m.brch, i) > 0
    ensures ActivitySpec.MacroDepth(m.brch, s.pc + 2 + Length(body)) == 0
  {
    hide AtProgram, ActivitySpec.MacroDepth, SpellsProgram, Spells, Length;
    DefSpelled(m, s, body, rest, env);
    DepthInMacro(m.brch, s.pc, body);
  }

  lemma DefSpelled(m: Model, s: State, body: Block, rest: Program, env: map<int, Macro>)
    requires AtProgram(m, s, Def(body, rest), env)
    ensures var p, q := s.pc, s.pc + 1 + Length(body);
            && 0 < p && q < |m.brch| && m.brch[p].typ.MacBeg? && Spells(m.brch, p + 1, body) && m.brch[q].typ.MacEnd?
            && ActivitySpec.MacroDepth(m.brch, p) == 0
  {
    hide Fresh, Holds, Before, Awake, SameKinds, Untouched, ActivitySpec.MacroDepth, Spells, Length;
  }

  /** A macro is stored and passed over. */
  lemma DefRuns(m: Model, s: State, body: Block, rest: Program, env: map<int, Macro>, v: int)
    returns (n: nat, s': State)
    requires AtProgram(m, s, Def(body, rest), env) && Arg(m, s.pc, s.trace) == Some(v)
    requires 1 <= v <= MAX_NUM_MACROS && v !in env
    ensures Run(m, s, n) == s' && AtProgram(m, s', rest, env[v := Macro(s.pc, body)])
    ensures s'.pc == s.pc + 2 + Length(body) && s'.trace == s.trace && s'.patn == s.patn && s'.brch[0] == s.brch[0]
  {
    hide Arg, Iterator, Run, Step, Fresh, Holds, Spells, Awake, AwakeAt, SameKinds, Untouched, Before, AtProgram,
         ActivitySpec.MacroDepth, SpellsProgram, Length;
    DefShape(m, s, body, rest, env);
    DefDepth(m, s, body, rest, env);
    MacBegStores(m, s, body, rest, env, v);
    var p: nat, hi: nat := s.pc, s.pc + 2 + Length(body);
    var r := s.(macros := s.macros[v := p], pc := p + 1);
    var a := PassesOver(m, r, hi);
    s' := r.(pc := hi, brch := a);
    n := 1 + (hi - p - 1);
    RunOn(m, s, 1, hi - p - 1);
    DefIsStored(m, s.brch, s.macros, p, Macro(p, body), rest, env, v, a);
    DefIsAwake(m, s, hi, a);
    AtRest(m, s, body, rest, env, s', env[v := Macro(p, body)]);
  }

  /* ---- a patbeg that is never closed ---- */

  /** The state behind an unmatched patbeg. */
  function Opened(m: Model, s: State, v: int): State
    requires s.pc >= 0
  {
    s.(patn := s.patn + [Frame(s.pc, -1, v, 1, Iterator(m, s.pc))], pc := s.pc + 1,
       trace := s.trace + [Assigned(Iterator(m, s.pc), 1)])
  }

  /** In any state of the loop: with no copies to make, the search for the patend that is
      not there leads to Branch 0; otherwise the loop goes on behind the patbeg, and all
      that is left of it is a frame and the value 1 of its iterator. */
  lemma UnmatchedPatBeg(m: Model, s: State, v: int)
    requires s.Sized(m) && s.status == Running && 0 < s.pc < |m.brch| && |s.patn| < MAX_NUM_PATTERNS
    requires s.brch[s.pc].typ.PatBeg? && s.brch[s.pc].actv == Active && Arg(m, s.pc, s.trace) == Some(v)
    requires MatchEnd(s.brch, s.pc + 1, 1) == -1
    ensures v < 1 ==> Run(m, s, 2) == s.(pc := 0, status := Failed(Overrun))
    ensures v >= 1 ==> Run(m, s, 1) == Opened(m, s, v)
  {
    hide Arg, Iterator, Run, MatchEnd;
    RunOne(m, s);
    if v < 1 {
      RunOne(m, s.(pc := 0));
      RunOn(m, s, 1, 1);
    }
  }

  /** What is known at an open patbeg. */
  lemma AtOpen(m: Model, s: State, rest: Program, env: map<int, Macro>)
    requires AtProgram(m, s, Open(rest), env)
    ensures s.Sized(m) && s.status == Running && 0 < s.pc < |m.brch| == |s.brch|
    ensures s.brch[s.pc].typ.PatBeg? && s.brch[s.pc].actv == Active && AwakeAt(m, s.brch, s.pc)
    ensures MatchEnd(s.brch, s.pc + 1, 1) == -1
    ensures ActivitySpec.MacroDepth(m.brch, s.pc + 1) == 0
  {
    hide Arg, Iterator, Holds, Before, Awake, MatchEnd, SpellsStmt, Spells;
    assert FreshAt(m, s.pc);
    NoPatendIsLeft(m.brch, s.pc + 1, rest, 1);
    SameSearch(m.brch, s.brch, s.pc + 1, 1);
  }

  /** A patbeg that fails, finds no free frame, or has no copies to make ends the build. */
  lemma OpenIsRefused(m: Model, s: State, rest: Program, env: map<int, Macro>)
    requires AtProgram(m, s, Open(rest), env)
    requires var v := Arg(m, s.pc, s.trace); v.None? || |s.patn| >= MAX_NUM_PATTERNS || v.value < 1
    ensures Finishes(m, s, 2, ExecProgram(m, s.pc, Open(rest), env, |s.patn|, s.trace))
  {
    hide Arg, Iterator, Run, Fresh, Holds, Awake, Before, AtProgram, MatchEnd, SameKinds, Untouched,
         ActivitySpec.MacroDepth;
    AtOpen(m, s, rest, env);
    var v := Arg(m, s.pc, s.trace);
    RunOne(m, s);
    if v.Some? && |s.patn| < MAX_NUM_PATTERNS {
      UnmatchedPatBeg(m, s, v.value);
    } else {
      RunOn(m, s, 1, 1);
      NoMoreTurns(m, Step(m, s), 1);
    }
  }

  lemma OpenRuns(m: Model, s: State, rest: Program, env: map<int, Macro>)
    requires AtProgram(m, s, Open(rest), env) && |s.patn| < MAX_NUM_PATTERNS
    requires var v := Arg(m, s.pc, s.trace); v.Some? && v.value >= 1
    ensures var s' := Opened(m, s, Arg(m, s.pc, s.trace).value);
            Run(m, s, 1) == s' && AtProgram(m, s', rest, env)
  {
    hide Arg, Iterator, Run, Step, Fresh, Holds, Awake, AwakeAt, Before, MatchEnd, SameKinds, Untouched, Spells,
         ActivitySpec.MacroDepth, SpellsStmt;
    AtOpen(m, s, rest, env);
    UnmatchedPatBeg(m, s, Arg(m, s.pc, s.trace).value);
    OneMoreAwake(m, s.brch, s.pc);
    BeforeLater(env, s.pc, s.pc + 1);
    UntouchedLater(m, s.brch, s.pc, s.pc + 1);
  }

  lemma OneMoreAwake(m: Model, a: seq<Brch>, p: nat)
    requires Awake(m, a, 1, p) && p < |m.brch| == |a| && AwakeAt(m, a, p)
    ensures Awake(m, a, 1, p + 1)
  {
    hide AwakeAt;
  }

  /** There is a model whose build ends well although its one patbeg is never closed. */
  lemma UnmatchedPatBegExists() returns (m: Model)
    ensures |m.brch| == 2 && Fresh(m) && SpellsProgram(m.brch, 1, Open(End))
    ensures Run(m, Start(m), 1).status == Running && Halted(m, Run(m, Start(m), 1))
  {
    hide Run;
    var b := Brch(PatBeg, Active, -1, -1, -1);
    m := Model([b, b], (_, _) => Some(1), _ => 1);
    var s := Start(m);
    assert FreshAt(m, 1);
    UnmatchedPatBeg(m, s, 1);
  }

  /** A build of a freshly checked model ends, and does just what its program says:
      the same events in the same order, and the same failure if there is one. */
  lemma BuildRunsProgram(m: Model, g: Program) returns (n: nat)
    requires |m.brch| > 0 && Fresh(m) && SpellsProgram(m.brch, 1, g)
    ensures Finishes(m, Start(m), n, ExecProgram(m, 1, g, map[], 0, []))
  {
    n := ProgramRuns(m, Start(m), g, map[]);
  }

  /* ---- models as a check leaves them ---- */

  /** A check leaves a model ready to be built, unless it inactivates a Branch that jumps. */
  lemma CheckedIsFresh(b: seq<Brch>, m: Model)
    requires ActivitySpec.Passes(b) && m.brch == ActivitySpec.Checked(b)
    requires forall i: nat :: 0 < i < |m.brch| && IsControl(m.brch[i].typ) ==> m.brch[i].actv in {Active, Deferred}
    ensures Fresh(m)
  {
    hide ActivitySpec.Passes, ActivitySpec.MacroDepth, ActivitySpec.Reached;
    var r := ActivitySpec.LinksOf(b);
    ActivitySpec.SettleKeeps(r);
    forall i: nat | 0 < i < |m.brch| ensures FreshAt(m, i) {
      ActivitySpec.SameMacroDepth(r, m.brch, i);
      assert m.brch[i].actv == ActivitySpec.Outcome(r, i);
    }
  }

  /** With nothing suppressed, a check leaves every Branch active or deferred. */
  lemma NothingSuppressed(b: seq<Brch>, i: nat)
    requires ActivitySpec.Passes(b) && forall j :: 0 <= j < |b| ==> b[j].actv != Suppressed
    requires 0 < i < |ActivitySpec.Checked(b)|
    ensures ActivitySpec.Checked(b)[i].actv in {Active, Deferred}
  {
    hide ActivitySpec.Passes, ActivitySpec.MacroDepth, ActivitySpec.Reached;
    var r := ActivitySpec.LinksOf(b);
    ActivitySpec.NothingReached(r, |r|);
  }

  /** Building a checked model with nothing suppressed does just what its program says. */
  lemma BuildOfCheckedModel(b: seq<Brch>, m: Model, g: Program) returns (n: nat)
    requires ActivitySpec.Passes(b) && forall j :: 0 <= j < |b| ==> b[j].actv != Suppressed
    requires m.brch == ActivitySpec.Checked(b) && SpellsProgram(b, 1, g)
    ensures Finishes(m, Start(m), n, ExecProgram(m, 1, g, map[], 0, []))
  {
    hide ActivitySpec.Passes, ActivitySpec.Checked, SpellsProgram, Fresh, Finishes, ExecProgram;
    forall i: nat | 0 < i < |m.brch| ensures m.brch[i].actv in {Active, Deferred} {
      NothingSuppressed(b, i);
    }
    CheckedHasSameKinds(b);
    CheckedIsFresh(b, m);
    SameProgram(b, m.brch, 1, g);
    n := BuildRunsProgram(m, g);
  }

  lemma CheckedHasSameKinds(b: seq<Brch>)
    requires ActivitySpec.Passes(b)
    ensures SameKinds(b, ActivitySpec.Checked(b)) && |b| > 0
  {
    ActivitySpec.SettleKeeps(ActivitySpec.LinksOf(b));
  }

  lemma {:induction false} SameStmt(a: seq<Brch>, b: seq<Brch>, p: nat, s: Stmt)
    requires SameKinds(a, b)
    ensures SpellsStmt(a, p, s) <==> SpellsStmt(b, p, s)
    decreases s
  {
    match s
    case Plain =>
    case Call =>
    case Loop(body) => SameBlock(a, b, p + 1, body);
  }

  lemma {:induction false} SameBlock(a: seq<Brch>, b: seq<Brch>, p: nat, block: Block)
    requires SameKinds(a, b)
    ensures Spells(a, p, block) <==> Spells(b, p, block)
    decreases block
  {
    hide SpellsStmt;
    match block
    case Nil =>
    case Cons(h, t) =>
      SameStmt(a, b, p, h);
      SameBlock(a, b, p + Size(h), t);
  }

  lemma SameSize(a: seq<Brch>, b: seq<Brch>)
    requires SameKinds(a, b)
    ensures |a| == |b| && forall i :: 0 <= i < |a| ==> a[i].typ == b[i].typ
  {
  }

  lemma {:induction false} SameProgram(a: seq<Brch>, b: seq<Brch>, p: nat, g: Program)
    requires SameKinds(a, b)
    ensures SpellsProgram(a, p, g) <==> SpellsProgram(b, p, g)
    decreases g
  {
    hide SpellsStmt, Spells, Size, Length, SameKinds;
    SameSize(a, b);
    match g
    case End =>
    case Then(s, rest) =>
      SameStmt(a, b, p, s);
      SameProgram(a, b, p + Size(s), rest);
    case Def(body, rest) =>
      SameBlock(a, b, p + 1, body);
      SameProgram(a, b, p + 2 + Length(body), rest);
    case Open(rest) => SameProgram(a, b, p + 1, rest);
  }

  /* ---- building again without checking again ---- */

  predicate HasMacro(g: Program) {
    match g
    case End => false
    case Then(_, rest) => HasMacro(rest)
    case Def(_, _) => true
    case Open(rest) => HasMacro(rest)
  }

  /** At program `g` of a model in which nothing is deferred, outside of all loops that end. */
  ghost predicate AllAwake(m: Model, s: State, g: Program) {
    && s.Sized(m) && s.status == Running && 0 < s.pc <= |m.brch| && NoneEnds(s.patn)
    && s.brch == m.brch && Awake(m, m.brch, 1, |m.brch|) && Holds(m, m.brch, s.macros, map[])
    && SpellsProgram(m.brch, s.pc, g)
  }

  predicate NoneEnds(fs: seq<Frame>) {
    forall i :: 0 <= i < |fs| ==> fs[i].ipatend == -1
  }

  /** What the first statement of the program does to such a build. */
  lemma StmtRunsAwake(m: Model, s: State, h: Stmt, rest: Program) returns (n: nat)
    requires AllAwake(m, s, Then(h, rest))
    ensures var r := Run(m, s, n);
            r.status != Running || (AllAwake(m, r, rest) && r.pc == s.pc + Size(h))
  {
    hide Run, Step, Holds, Spells, Awake, ExecStmt, Length;
    AwakePart(m, m.brch, 1, |m.brch|, s.pc, s.pc + Size(h));
    TypesAreSame(m.brch);
    n := StmtRuns(m, s, h, map[]);
  }

  /** The macbeg, if it does not fail, is followed by the body of the macro itself. */
  lemma MacBegAwake(m: Model, s: State, body: Block, rest: Program)
    requires AllAwake(m, s, Def(body, rest))
    ensures var v := Arg(m, s.pc, s.trace); var r := Run(m, s, 1);
            r.status != Running || (v.Some? && 1 <= v.value <= MAX_NUM_MACROS && r == s.(macros := s.macros[v.value := s.pc], pc := s.pc + 1))
  {
    hide Arg, Iterator, Run, Holds, Spells, Length;
    assert AwakeAt(m, m.brch, s.pc);
    RunOne(m, s);
  }

  /** Macro `c` is one of the model. */
  lemma StoredAwake(m: Model, s: State, body: Block, rest: Program)
    requires AllAwake(m, s, Def(body, rest))
    ensures Stored(m, m.brch, Macro(s.pc, body))
    ensures var q := s.pc + 1 + Length(body);
            q < |m.brch| && Awake(m, m.brch, s.pc + 1, q) && AwakeAt(m, m.brch, q) && m.brch[q].typ.MacEnd? && Spells(m.brch, s.pc + 1, body)
  {
    hide Holds, Spells, AwakeAt, Length;
    AwakePart(m, m.brch, 1, |m.brch|, s.pc + 1, s.pc + 2 + Length(body));
    AwakePart(m, m.brch, 1, |m.brch|, s.pc + 1, s.pc + 1 + Length(body));
  }

  /** The macend returns to Branch 0, if to anything at all. */
  lemma MacEndOverruns(m: Model, s: State)
    requires s.Sized(m) && s.status == Running && NoneEnds(s.patn) && 0 < s.pc < |m.brch|
    requires AwakeAt(m, s.brch, s.pc) && m.brch[s.pc].typ.MacEnd?
    ensures Run(m, s, 2).status != Running
  {
    hide Run;
    RunOne(m, s);
    RunOn(m, s, 1, 1);
    var r := Step(m, s);
    if s.patn == [] { NoMoreTurns(m, r, 1); } else { RunOne(m, r); }
  }

  /** A macro that is not deferred never lets the build end well: its body is run where
      it stands, and its macend has no call to return to. */
  lemma DefFailsAwake(m: Model, s: State, body: Block, rest: Program) returns (n: nat)
    requires AllAwake(m, s, Def(body, rest))
    ensures Run(m, s, n).status != Running
  {
    hide Arg, Run, Step, Holds, Spells, SpellsProgram, Awake, AwakeAt, Stored, Length, Exec, NoneEnds;
    MacBegAwake(m, s, body, rest);
    n := 1;
    if Run(m, s, 1).status == Running {
      var r := Run(m, s, 1);
      var v := Arg(m, s.pc, s.trace).value;
      StoredAwake(m, s, body, rest);
      HoldsMore(m, m.brch, s.macros, map[], v, Macro(s.pc, body));
      TypesAreSame(m.brch);
      var k := BlockRuns(m, r, body, map[][v := Macro(s.pc, body)]);
      RunOn(m, s, 1, k);
      n := 1 + k;
      if Run(m, s, n).status == Running {
        MacEndOverruns(m, Run(m, r, k));
        RunOn(m, s, n, 2);
        n := n + 2;
      }
    }
  }

  /** An open patbeg in such a build. */
  lemma OpenRunsAwake(m: Model, s: State, rest: Program) returns (n: nat)
    requires AllAwake(m, s, Open(rest))
    ensures var r := Run(m, s, n); r.status != Running || AllAwake(m, r, rest)
  {
    hide Arg, Iterator, Run, Holds, MatchEnd, SpellsStmt, Spells;
    assert AwakeAt(m, m.brch, s.pc);
    NoPatendIsLeft(m.brch, s.pc + 1, rest, 1);
    n := 1;
    RunOne(m, s);
    var v := Arg(m, s.pc, s.trace);
    if v.Some? && |s.patn| < MAX_NUM_PATTERNS {
      UnmatchedPatBeg(m, s, v.value);
      if v.value < 1 { n := 2; }
    }
  }

  lemma TypesAreSame(b: seq<Brch>)
    ensures SameKinds(b, b)
  {
  }

  /** With a macro in it, a model in which nothing is deferred cannot be built. */
  lemma {:induction false} AwakeMacroFails(m: Model, s: State, g: Program) returns (n: nat)
    requires AllAwake(m, s, g) && HasMacro(g)
    ensures Run(m, s, n).status != Running
    decreases g
  {
    hide Run, Step, AllAwake;
    SizedFromAwake(m, s, g);
    match g
    case Then(h, rest) =>
      n := StmtRunsAwake(m, s, h, rest);
      if Run(m, s, n).status == Running {
        var k := AwakeMacroFails(m, Run(m, s, n), rest);
        RunOn(m, s, n, k);
        n := n + k;
      }
    case Def(body, rest) =>
      n := DefFailsAwake(m, s, body, rest);
    case Open(rest) =>
      n := OpenRunsAwake(m, s, rest);
      if Run(m, s, n).status == Running {
        var k := AwakeMacroFails(m, Run(m, s, n), rest);
        RunOn(m, s, n, k);
        n := n + k;
      }
  }

  lemma SizedFromAwake(m: Model, s: State, g: Program)
    requires AllAwake(m, s, g)
    ensures s.Sized(m)
  {
  }

  lemma NothingHeld(m: Model, a: seq<Brch>)
    ensures Holds(m, a, NoMacros(), map[])
  {
  }

  /** The first build of the model has ended well, and left these Branches. What the
      Branches are given may have changed, as the values of Parameters stay changed. */
  ghost predicate LeftBy(m: Model, n: nat, again: Model) {
    var r := Run(m, Start(m), n);
    Halted(m, r) && r.status == Running && again.brch == r.brch
  }

  /** To build again what a build left, without checking it again, works just when there is
      no macro: the Branches are then those of the check, so that the second build too does
      what its program says, whatever its arguments; with a macro it always fails. */
  lemma SecondBuild(m: Model, g: Program, n: nat, again: Model)
    requires |m.brch| > 0 && Fresh(m) && SpellsProgram(m.brch, 1, g) && LeftBy(m, n, again)
    ensures !HasMacro(g) ==> again.brch == m.brch && Fresh(again)
    ensures HasMacro(g) ==> exists k :: Run(again, Start(again), k).status != Running
  {
    hide Run, Step, SpellsProgram, Fresh, Holds, LeftBy;
    LeftAwake(m, g, n, again);
    if HasMacro(g) {
      NothingHeld(again, again.brch);
      var k := AwakeMacroFails(again, Start(again), g);
    } else {
      NeverDeferred(m, g, 1);
      forall i: nat | 0 <= i < |m.brch| ensures again.brch[i] == m.brch[i] {
        if i > 0 { assert AwakeAt(m, again.brch, i); }
      }
      assert again.brch == m.brch;
      SameFresh(m, again);
    }
  }

  lemma SameFresh(m: Model, again: Model)
    requires Fresh(m) && again.brch == m.brch
    ensures Fresh(again)
  {
    forall i: nat | 0 < i < |m.brch| ensures FreshAt(again, i) { assert FreshAt(m, i); }
  }

  /** A build that has ended well is the one that the program describes. */
  lemma EndedWell(m: Model, g: Program, n: nat)
    requires |m.brch| > 0 && Fresh(m) && SpellsProgram(m.brch, 1, g)
    requires Halted(m, Run(m, Start(m), n)) && Run(m, Start(m), n).status == Running
    ensures Awake(m, Run(m, Start(m), n).brch, 1, |m.brch|) && Run(m, Start(m), n).brch[0] == m.brch[0]
  {
    hide Run, Step, Fresh, SpellsProgram, ExecProgram, Awake;
    var k := BuildRunsProgram(m, g);
    if n <= k { HaltedStays(m, Start(m), n, k); } else { HaltedStays(m, Start(m), k, n); }
  }

  lemma LeftAwake(m: Model, g: Program, n: nat, again: Model)
    requires |m.brch| > 0 && Fresh(m) && SpellsProgram(m.brch, 1, g) && LeftBy(m, n, again)
    ensures |again.brch| == |m.brch| && Awake(m, again.brch, 1, |m.brch|) && Awake(again, again.brch, 1, |m.brch|)
    ensures SpellsProgram(again.brch, 1, g) && again.brch[0] == m.brch[0]
  {
    hide Run, SpellsProgram, Fresh;
    EndedWell(m, g, n);
    forall i: nat | 1 <= i < |m.brch| ensures AwakeAt(again, again.brch, i) && again.brch[i].typ == m.brch[i].typ {
      assert AwakeAt(m, again.brch, i);
    }
    SameProgram(m.brch, again.brch, 1, g);
  }

  /** Without a macro nothing is deferred. */
  lemma {:induction false} NeverDeferred(m: Model, g: Program, p: nat)
    requires Fresh(m) && SpellsProgram(m.brch, p, g) && !HasMacro(g) && p > 0 && ActivitySpec.MacroDepth(m.brch, p) == 0
    ensures forall i :: p <= i < |m.brch| ==> m.brch[i].actv != Deferred
    decreases g
  {
    hide ActivitySpec.MacroDepth, SpellsStmt, Spells, Size, Length;
    match g
    case End =>
    case Then(h, rest) =>
      StmtIsMacroFree(m.brch, p, h);
      DepthStays(m.brch, p, p + Size(h));
      NeverDeferred(m, rest, p + Size(h));
      forall i: nat | p <= i < p + Size(h) ensures m.brch[i].actv != Deferred {
        assert ActivitySpec.MacroDepth(m.brch, i) == 0;
        if i < |m.brch| { assert FreshAt(m, i); }
      }
    case Open(rest) =>
      DepthStays(m.brch, p, p + 1);
      assert ActivitySpec.MacroDepth(m.brch, p + 1) == 0;
      assert FreshAt(m, p);
      NeverDeferred(m, rest, p + 1);
  }
}

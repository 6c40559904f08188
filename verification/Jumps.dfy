/** The Branch loop, with its jumps, does what the structured program does. */
module Jumps {
  import opened Basics
  import opened Branches
  import opened JumpMachine
  import opened Structured

  /** Branch `i` is no longer deferred. */
  ghost predicate AwakeAt(m: Model, a: seq<Brch>, i: nat)
    requires i < |m.brch| == |a|
  {
    && a[i] == (if Live(m, i) then m.brch[i].(actv := Active) else m.brch[i])
    && (IsControl(m.brch[i].typ) ==> Live(m, i))
  }

  ghost predicate Awake(m: Model, a: seq<Brch>, lo: nat, hi: nat) {
    && hi <= |m.brch| == |a|
    && (forall i: nat {:trigger AwakeAt(m, a, i)} :: lo <= i < hi ==> AwakeAt(m, a, i))
  }

  /** Macro `c` is stored: its body and its macend are there, and awake. */
  ghost predicate Stored(m: Model, a: seq<Brch>, c: Macro) {
    var q := c.ibrch + 1 + Length(c.body);
    && c.ibrch > 0 && Awake(m, a, c.ibrch + 1, q + 1)
    && Spells(m.brch, c.ibrch + 1, c.body) && m.brch[q].typ.MacEnd?
  }

  /** The table of macros holds just the macros of the environment. */
  ghost predicate Holds(m: Model, a: seq<Brch>, macros: seq<int>, env: map<int, Macro>) {
    && |macros| == MAX_NUM_MACROS + 1
    && (forall v {:trigger env[v]} :: v in env ==>
              1 <= v <= MAX_NUM_MACROS && macros[v] == env[v].ibrch && Stored(m, a, env[v]))
    && (forall v {:trigger macros[v]} :: 1 <= v <= MAX_NUM_MACROS && v !in env ==> macros[v] <= 0)
  }

  /** Ready to run the Branches from the current one up to, not including, `hi`. */
  ghost predicate Ready(m: Model, s: State, hi: nat, env: map<int, Macro>) {
    && s.Sized(m) && s.status == Running && 0 < s.pc <= hi
    && Awake(m, s.brch, s.pc, hi) && Holds(m, s.brch, s.macros, env) && SameKinds(m.brch, s.brch)
  }

  ghost predicate SameKinds(a: seq<Brch>, b: seq<Brch>) {
    |a| == |b| && forall i :: 0 <= i < |a| ==> a[i].typ == b[i].typ
  }

  /** After `n` turns the loop has done what `out` says, and if nothing failed its
      state is `e`. */
  ghost predicate Lands(m: Model, s: State, n: nat, e: State, out: Outcome)
    requires s.Sized(m)
  {
    var r := Run(m, s, n);
    r.trace == out.trace && r.status == out.status && (out.status == Running ==> r == e)
  }

  lemma LandsOn(m: Model, s: State, n: nat, r: State, k: nat, e: State, out: Outcome)
    requires s.Sized(m) && Run(m, s, n) == r && Lands(m, r, k, e, out)
    ensures Lands(m, s, n + k, e, out)
  {
    hide Arg, Iterator, Run;
    RunOn(m, s, n, k);
  }

  lemma {:induction false} SameSearch(a: seq<Brch>, b: seq<Brch>, q: nat, i: nat)
    requires SameKinds(a, b) && q <= |a| && i > 0
    ensures MatchEnd(a, q, i) == MatchEnd(b, q, i)
    decreases |a| - q
  {
    if q < |a| {
      SameSearch(a, b, q + 1, if a[q].typ.PatBeg? then i + 1 else if a[q].typ.PatEnd? && i > 1 then i - 1 else i);
    }
  }

  lemma AwakePart(m: Model, a: seq<Brch>, lo: nat, hi: nat, lo': nat, hi': nat)
    requires Awake(m, a, lo, hi) && lo <= lo' && hi' <= hi
    ensures Awake(m, a, lo', hi')
  {
  }

  ghost predicate ReadyFor(m: Model, s: State, h: Stmt, env: map<int, Macro>) {
    s.pc > 0 && Ready(m, s, s.pc + Size(h), env) && SpellsStmt(m.brch, s.pc, h)
  }

  /** Where a statement that ends with the events `t` leaves the loop. */
  function Past(s: State, h: Stmt, t: seq<Event>): State {
    s.(pc := s.pc + Size(h), trace := t)
  }

  lemma AtStmt(m: Model, s: State, h: Stmt, env: map<int, Macro>)
    requires ReadyFor(m, s, h, env)
    ensures s.Sized(m) && s.status == Running && 0 < s.pc < |m.brch|
    ensures s.brch[s.pc].typ == m.brch[s.pc].typ && s.brch[s.pc].actv != Deferred
    ensures Live(m, s.pc) <==> s.brch[s.pc].actv == Active
    ensures h != Plain ==> Live(m, s.pc)
    ensures SpellsStmt(m.brch, s.pc, h) && SameKinds(m.brch, s.brch) && Holds(m, s.brch, s.macros, env)
  {
    hide Holds, Spells, Length;
    assert AwakeAt(m, s.brch, s.pc);
  }

  lemma PlainRuns(m: Model, s: State, env: map<int, Macro>)
    requires ReadyFor(m, s, Plain, env)
    ensures var out := ExecStmt(m, s.pc, Plain, env, |s.patn|, s.trace); Lands(m, s, 1, Past(s, Plain, out.trace), out)
  {
    hide Arg, Iterator, Run, Holds, Exec, Copies, ReadyFor;
    AtStmt(m, s, Plain, env);
    RunOne(m, s);
  }

  /** A call or a loop that does not get to its body. */
  ghost predicate Refused(m: Model, s: State, h: Stmt, env: map<int, Macro>)
    requires s.pc >= 0
  {
    var v := Arg(m, s.pc, s.trace);
    v.None? || |s.patn| >= MAX_NUM_PATTERNS || (if h.Call? then v.value !in env else v.value < 1)
  }

  lemma InEnvironment(m: Model, a: seq<Brch>, macros: seq<int>, env: map<int, Macro>, v: int)
    requires Holds(m, a, macros, env)
    ensures v in env ==> 1 <= v <= MAX_NUM_MACROS && macros[v] == env[v].ibrch > 0 && Stored(m, a, env[v])
    ensures 1 <= v <= MAX_NUM_MACROS && macros[v] > 0 ==> v in env
  {
    hide Arg, Iterator, Awake, Spells;
  }

  lemma CallIsRefused(m: Model, s: State, env: map<int, Macro>)
    requires ReadyFor(m, s, Call, env) && Refused(m, s, Call, env)
    ensures var out := ExecStmt(m, s.pc, Call, env, |s.patn|, s.trace); Lands(m, s, 1, Past(s, Call, out.trace), out)
  {
    hide Arg, Iterator, Run, Holds, Exec, Stored, ReadyFor, SameKinds;
    AtStmt(m, s, Call, env);
    var v := Arg(m, s.pc, s.trace);
    if v.Some? { InEnvironment(m, s.brch, s.macros, env, v.value); }
    RunOne(m, s);
  }

  lemma PatEndFound(m: Model, s: State, body: Block, env: map<int, Macro>)
    requires ReadyFor(m, s, Loop(body), env)
    ensures s.pc + 1 + Length(body) < |m.brch| == |s.brch| && MatchEnd(s.brch, s.pc + 1, 1) == s.pc + 1 + Length(body)
    ensures s.brch[s.pc].typ.PatBeg?
  {
    hide Holds, Spells, MatchEnd, Length, Awake;
    FindsItsPatend(m.brch, s.pc, body);
    SameSearch(m.brch, s.brch, s.pc + 1, 1);
  }

  lemma PatBegStep(m: Model, s: State, body: Block, env: map<int, Macro>)
    requires ReadyFor(m, s, Loop(body), env)
    ensures Step(m, s) ==
            match Arg(m, s.pc, s.trace)
            case None => s.Fail(BranchFailed)
            case Some(v) =>
              if |s.patn| >= MAX_NUM_PATTERNS then s.Fail(PatternsNestedTooDeeply)
              else if v < 1 then s.(pc := s.pc + 2 + Length(body))
              else Entered(m, s, body, v)
    ensures Live(m, s.pc)
  {
    hide Arg, Iterator, Holds, MatchEnd, Length, ReadyFor, SameKinds, SpellsStmt;
    AtStmt(m, s, Loop(body), env);
    PatEndFound(m, s, body, env);
  }

  lemma LoopIsRefused(m: Model, s: State, body: Block, env: map<int, Macro>)
    requires ReadyFor(m, s, Loop(body), env) && Refused(m, s, Loop(body), env)
    ensures var out := ExecStmt(m, s.pc, Loop(body), env, |s.patn|, s.trace);
            Lands(m, s, 1, Past(s, Loop(body), out.trace), out)
  {
    hide Arg, Iterator, Run, Step, Exec, SpellsStmt, Holds, ReadyFor, SameKinds, Length;
    AtStmt(m, s, Loop(body), env);
    PatBegStep(m, s, body, env);
    RunOne(m, s);
  }

  /** One statement is done after finitely many turns. */
  lemma {:induction false} StmtRuns(m: Model, s: State, h: Stmt, env: map<int, Macro>) returns (n: nat)
    requires ReadyFor(m, s, h, env)
    ensures var out := ExecStmt(m, s.pc, h, env, |s.patn|, s.trace); Lands(m, s, n, Past(s, h, out.trace), out)
    decreases MAX_NUM_PATTERNS - |s.patn|, 0, h, 1
  {
    hide Arg, Iterator, Lands, ExecStmt, SpellsStmt, Awake, Holds;
    match h
    case Plain =>
      PlainRuns(m, s, env);
      n := 1;
    case Call =>
      assert h == Call;
      if Refused(m, s, h, env) {
        CallIsRefused(m, s, env);
        n := 1;
      } else {
        n := CallRuns(m, s, env);
      }
    case Loop(body) =>
      if Refused(m, s, h, env) {
        LoopIsRefused(m, s, body, env);
        n := 1;
      } else {
        n := LoopRuns(m, s, body, env);
      }
  }

  /** The state in which a macro begins. */
  function Called(s: State, c: Macro): State
    requires s.pc >= 0
  {
    s.(patn := s.patn + [Frame(c.ibrch, s.pc, 1, 1, 0)], pc := c.ibrch + 1)
  }

  /** One turn enters the macro. */
  lemma CallEnters(m: Model, s: State, env: map<int, Macro>, v: int)
    requires ReadyFor(m, s, Call, env) && !Refused(m, s, Call, env) && v == Arg(m, s.pc, s.trace).value
    ensures Run(m, s, 1) == Called(s, env[v]) && Stored(m, s.brch, env[v])
    ensures ExecStmt(m, s.pc, Call, env, |s.patn|, s.trace) ==
            Exec(m, env[v].ibrch + 1, env[v].body, env, |s.patn| + 1, s.trace)
  {
    hide Arg, Iterator, Run, Holds, Exec, ReadyFor, SameKinds;
    AtStmt(m, s, Call, env);
    InEnvironment(m, s.brch, s.macros, env, v);
    hide Stored;
    RunOne(m, s);
  }

  lemma ReadyInMacro(m: Model, s: State, env: map<int, Macro>, c: Macro)
    requires ReadyFor(m, s, Call, env) && Stored(m, s.brch, c) && |s.patn| < MAX_NUM_PATTERNS
    ensures Ready(m, Called(s, c), c.ibrch + 1 + Length(c.body), env)
    ensures var q := c.ibrch + 1 + Length(c.body);
            0 < q < |m.brch| == |s.brch| && AwakeAt(m, s.brch, q) && m.brch[q].typ.MacEnd?
    ensures Spells(m.brch, c.ibrch + 1, c.body)
  {
    hide Holds, Spells, SameKinds, Length;
  }

  /** One turn leaves the macro. */
  lemma MacEndReturns(m: Model, s: State, fs: seq<Frame>, f: Frame)
    requires s.Sized(m) && s.status == Running && 0 < s.pc < |m.brch| && s.patn == fs + [f]
    requires AwakeAt(m, s.brch, s.pc) && m.brch[s.pc].typ.MacEnd?
    ensures Run(m, s, 1) == s.(patn := fs, pc := f.ipatend + 1)
  {
    hide Arg, Iterator, Run;
    RunOne(m, s);
    assert s.patn[..|fs|] == fs;
  }

  /** A call is done after finitely many turns. */
  lemma {:induction false} CallRuns(m: Model, s: State, env: map<int, Macro>) returns (n: nat)
    requires ReadyFor(m, s, Call, env) && !Refused(m, s, Call, env)
    ensures var out := ExecStmt(m, s.pc, Call, env, |s.patn|, s.trace); Lands(m, s, n, Past(s, Call, out.trace), out)
    decreases MAX_NUM_PATTERNS - |s.patn|, 0, Call, 0
  {
    hide Arg, Iterator, Run, Step, Holds, Exec, ExecStmt, Spells, SpellsStmt, Stored, Ready, AwakeAt, Length;
    AtStmt(m, s, Call, env);
    var v := Arg(m, s.pc, s.trace).value;
    CallEnters(m, s, env, v);
    var c := env[v];
    ReadyInMacro(m, s, env, c);
    var r := Called(s, c);
    var k := BlockRuns(m, r, c.body, env);
    CallLeaves(m, s, c, k, Exec(m, c.ibrch + 1, c.body, env, |s.patn| + 1, s.trace));
    n := if Run(m, r, k).status == Running then 1 + (k + 1) else 1 + k;
  }

  lemma CallLeaves(m: Model, s: State, c: Macro, k: nat, out: Outcome)
    requires var q := c.ibrch + 1 + Length(c.body);
             0 < q < |m.brch| == |s.brch| && AwakeAt(m, s.brch, q) && m.brch[q].typ.MacEnd?
    requires s.Sized(m) && s.status == Running && 0 < s.pc && |s.patn| < MAX_NUM_PATTERNS
    requires var r := Called(s, c);
             r.Sized(m) && Run(m, s, 1) == r && Lands(m, r, k, r.(pc := c.ibrch + 1 + Length(c.body), trace := out.trace), out)
    ensures Lands(m, s, if out.status == Running then 1 + (k + 1) else 1 + k, Past(s, Call, out.trace), out)
  {
    hide Run, Step, AwakeAt, Length;
    var q := c.ibrch + 1 + Length(c.body);
    var r := Called(s, c);
    if out.status == Running {
      MacEndReturns(m, r.(pc := q, trace := out.trace), s.patn, Frame(c.ibrch, s.pc, 1, 1, 0));
      RunOn(m, r, k, 1);
      RunOn(m, s, 1, k + 1);
    } else {
      RunOn(m, s, 1, k);
    }
  }

  /** One turn enters the loop, with 1 for its iterator. */
  lemma LoopEnters(m: Model, s: State, body: Block, env: map<int, Macro>, v: int)
    requires ReadyFor(m, s, Loop(body), env) && !Refused(m, s, Loop(body), env) && v == Arg(m, s.pc, s.trace).value
    ensures Run(m, s, 1) == Entered(m, s, body, v)
    ensures ExecStmt(m, s.pc, Loop(body), env, |s.patn|, s.trace) ==
            Copies(m, s.pc, body, env, |s.patn| + 1, 1, v, s.trace)
  {
    hide Arg, Iterator, Run, Step, Exec, SpellsStmt, Holds, ReadyFor, SameKinds, Length, Copies;
    AtStmt(m, s, Loop(body), env);
    PatBegStep(m, s, body, env);
    RunOne(m, s);
  }

  lemma ReadyInLoop(m: Model, s: State, body: Block, env: map<int, Macro>, v: int)
    requires ReadyFor(m, s, Loop(body), env) && |s.patn| < MAX_NUM_PATTERNS
    ensures Ready(m, Entered(m, s, body, v), s.pc + 2 + Length(body), env)
  {
    hide Arg, Iterator, Holds, SpellsStmt, SameKinds, Length, Awake;
    AwakePart(m, s.brch, s.pc, s.pc + 2 + Length(body), s.pc + 1, s.pc + 2 + Length(body));
  }

  /** The state in which a loop begins its first copy. */
  function Entered(m: Model, s: State, body: Block, v: int): State
    requires s.pc >= 0
  {
    s.(patn := s.patn + [Frame(s.pc, s.pc + 1 + Length(body), v, 1, Iterator(m, s.pc))], pc := s.pc + 1,
       trace := s.trace + [Assigned(Iterator(m, s.pc), 1)])
  }

  lemma LoopLeaves(m: Model, s: State, body: Block, v: int, k: nat, out: Outcome)
    requires s.Sized(m) && s.pc >= 0 && Run(m, s, 1) == Entered(m, s, body, v)
    requires var r := Entered(m, s, body, v);
             r.Sized(m) && Lands(m, r, k, r.(patn := s.patn, pc := s.pc + 2 + Length(body), trace := out.trace), out)
    ensures Lands(m, s, 1 + k, Past(s, Loop(body), out.trace), out)
  {
    hide Arg, Iterator, Run, Step, Lands, Length;
    var r := Entered(m, s, body, v);
    var e := r.(patn := s.patn, pc := s.pc + 2 + Length(body), trace := out.trace);
    assert e == Past(s, Loop(body), out.trace);
    LandsOn(m, s, 1, r, k, e, out);
  }

  /** A loop is done after finitely many turns. */
  lemma {:induction false} LoopRuns(m: Model, s: State, body: Block, env: map<int, Macro>) returns (n: nat)
    requires ReadyFor(m, s, Loop(body), env) && !Refused(m, s, Loop(body), env)
    ensures var out := ExecStmt(m, s.pc, Loop(body), env, |s.patn|, s.trace);
            Lands(m, s, n, Past(s, Loop(body), out.trace), out)
    decreases MAX_NUM_PATTERNS - |s.patn|, 0, Loop(body), 0
  {
    hide Arg, Iterator, Run, Step, Exec, ExecStmt, Copies, Lands, Past, Size, Length, SpellsStmt, Holds, Awake;
    var v := Arg(m, s.pc, s.trace).value;
    LoopEnters(m, s, body, env, v);
    ReadyInLoop(m, s, body, env, v);
    var r := Entered(m, s, body, v);
    var k := CopiesRun(m, r, s.patn, s.pc, body, env, 1, v, s.trace);
    LoopLeaves(m, s, body, v, k, Copies(m, s.pc, body, env, |s.patn| + 1, 1, v, s.trace));
    n := 1 + k;
  }

  /** One turn at a patend, for the next copy or past the last one. */
  lemma PatEndJumps(m: Model, s: State, fs: seq<Frame>, f: Frame)
    requires s.Sized(m) && s.status == Running && 0 < s.pc < |m.brch| && s.patn == fs + [f]
    requires AwakeAt(m, s.brch, s.pc) && m.brch[s.pc].typ.PatEnd?
    ensures Run(m, s, 1) ==
            if f.icopy + 1 <= f.ncopy then
              s.(patn := fs + [f.(icopy := f.icopy + 1)], pc := f.ipatbeg + 1, trace := s.trace + [Assigned(f.ipmtr, f.icopy + 1)])
            else
              s.(patn := fs, pc := s.pc + 1)
  {
    hide Arg, Iterator, Run;
    RunOne(m, s);
    assert s.patn[..|fs|] == fs;
    assert s.patn[|fs| := f.(icopy := f.icopy + 1)] == fs + [f.(icopy := f.icopy + 1)];
  }

  /** After a copy and the turn at its patend. */
  lemma CopyEnds(m: Model, s: State, fs: seq<Frame>, f: Frame, q: nat, k: nat, t: seq<Event>)
    requires s.Sized(m) && s.status == Running && s.patn == fs + [f] && 0 < q < |m.brch|
    requires AwakeAt(m, s.brch, q) && m.brch[q].typ.PatEnd?
    requires Run(m, s, k) == s.(pc := q, trace := t)
    ensures Run(m, s, k + 1) ==
            if f.icopy + 1 <= f.ncopy then
              s.(patn := fs + [f.(icopy := f.icopy + 1)], pc := f.ipatbeg + 1, trace := t + [Assigned(f.ipmtr, f.icopy + 1)])
            else
              s.(patn := fs, pc := q + 1, trace := t)
  {
    hide Arg, Iterator, Run, AwakeAt;
    PatEndJumps(m, s.(pc := q, trace := t), fs, f);
    RunOn(m, s, k, 1);
  }

  /** The copies of a loop body from the `i`-th on are done after finitely many turns. */
  lemma {:induction false} CopiesRun(m: Model, s: State, fs: seq<Frame>, p: nat, body: Block, env: map<int, Macro>,
                                     i: int, n: int, t: seq<Event>) returns (k: nat)
    requires SpellsStmt(m.brch, p, Loop(body)) && i <= n && p > 0
    requires Ready(m, s, p + 2 + Length(body), env) && s.pc == p + 1
    requires s.patn == fs + [Frame(p, p + 1 + Length(body), n, i, Iterator(m, p))]
    requires s.trace == t + [Assigned(Iterator(m, p), i)]
    ensures var out := Copies(m, p, body, env, |s.patn|, i, n, t);
            Lands(m, s, k, s.(patn := fs, pc := p + 2 + Length(body), trace := out.trace), out)
    decreases MAX_NUM_PATTERNS - |s.patn|, 1, n + 1 - i
  {
    hide Arg, Iterator, Run, Step, Holds, Exec, ExecStmt, Spells, SpellsStmt, AwakeAt, Ready, Length;
    var q := p + 1 + Length(body);
    var f := Frame(p, q, n, i, Iterator(m, p));
    ReadyToCopy(m, s, p, body, env);
    k := BlockRuns(m, s, body, env);
    var r := Exec(m, p + 1, body, env, |s.patn|, s.trace);
    if r.status != Running {
      FailedCopy(m, s, k, p, body, env, i, n, t, fs);
    } else {
      CopyEnds(m, s, fs, f, q, k, r.trace);
      if i + 1 <= n {
        var s' := s.(patn := fs + [f.(icopy := i + 1)], trace := r.trace + [Assigned(Iterator(m, p), i + 1)]);
        ReadyAgain(m, s, s', q + 1, env);
        var k' := CopiesRun(m, s', fs, p, body, env, i + 1, n, r.trace);
        CopiesGoOn(m, s, k + 1, s', k', fs, p, body, env, i, n, t, r);
        k := k + 1 + k';
      } else {
        k := k + 1;
      }
    }
  }

  lemma ReadyToCopy(m: Model, s: State, p: nat, body: Block, env: map<int, Macro>)
    requires SpellsStmt(m.brch, p, Loop(body)) && Ready(m, s, p + 2 + Length(body), env) && s.pc == p + 1
    ensures var q := p + 1 + Length(body);
            && Ready(m, s, q, env) && AwakeAt(m, s.brch, q) && m.brch[q].typ.PatEnd? && q < |m.brch|
            && Spells(m.brch, p + 1, body)
    ensures s.Sized(m) && s.status == Running
  {
    hide Holds, Spells, Length, SameKinds, AwakeAt;
  }

  lemma ReadyAgain(m: Model, s: State, s': State, hi: nat, env: map<int, Macro>)
    requires Ready(m, s, hi, env) && s' == s.(patn := s'.patn, trace := s'.trace) && |s'.patn| == |s.patn|
    ensures Ready(m, s', hi, env)
  {
    hide Holds, SameKinds, Awake;
  }

  lemma CopiesGoOn(m: Model, s: State, k: nat, s': State, k': nat, fs: seq<Frame>, p: nat, body: Block,
                   env: map<int, Macro>, i: int, n: int, t: seq<Event>, r: Outcome)
    requires s.Sized(m) && i + 1 <= n && Run(m, s, k) == s' && |s.patn| == |s'.patn|
    requires r == Exec(m, p + 1, body, env, |s.patn|, t + [Assigned(Iterator(m, p), i)]) && r.status == Running
    requires s' == s.(patn := s'.patn, trace := s'.trace)
    requires var out := Copies(m, p, body, env, |s'.patn|, i + 1, n, r.trace);
             Lands(m, s', k', s'.(patn := fs, pc := p + 2 + Length(body), trace := out.trace), out)
    ensures var out := Copies(m, p, body, env, |s.patn|, i, n, t);
            Lands(m, s, k + k', s.(patn := fs, pc := p + 2 + Length(body), trace := out.trace), out)
  {
    hide Arg, Iterator, Run, Exec, Lands, Length;
    var out := Copies(m, p, body, env, |s.patn|, i, n, t);
    assert out == Copies(m, p, body, env, |s.patn|, i + 1, n, r.trace);
    LandsOn(m, s, k, s', k', s'.(patn := fs, pc := p + 2 + Length(body), trace := out.trace), out);
  }

  lemma FailedCopy(m: Model, s: State, k: nat, p: nat, body: Block, env: map<int, Macro>, i: int, n: int, t: seq<Event>,
                   fs: seq<Frame>)
    requires s.Sized(m) && i <= n && s.trace == t + [Assigned(Iterator(m, p), i)]
    requires var r := Exec(m, p + 1, body, env, |s.patn|, s.trace);
             r.status != Running && Run(m, s, k).trace == r.trace && Run(m, s, k).status == r.status
    ensures var out := Copies(m, p, body, env, |s.patn|, i, n, t);
            Lands(m, s, k, s.(patn := fs, pc := p + 2 + Length(body), trace := out.trace), out)
  {
    hide Arg, Iterator, Run, Exec;
  }

  lemma BlockParts(m: Model, s: State, h: Stmt, rest: Block, env: map<int, Macro>)
    requires s.pc > 0 && Ready(m, s, s.pc + Length(Cons(h, rest)), env) && Spells(m.brch, s.pc, Cons(h, rest))
    ensures ReadyFor(m, s, h, env) && Spells(m.brch, s.pc + Size(h), rest)
  {
    hide Holds, Spells, SpellsStmt, Awake, SameKinds, Size, Length;
    SpellsCons(m.brch, s.pc, h, rest);
    LengthOfCons(h, rest);
    AwakePart(m, s.brch, s.pc, s.pc + Length(Cons(h, rest)), s.pc, s.pc + Size(h));
  }

  lemma ReadyBehind(m: Model, s: State, h: Stmt, rest: Block, env: map<int, Macro>, t: seq<Event>)
    requires s.pc > 0 && Ready(m, s, s.pc + Length(Cons(h, rest)), env)
    ensures Ready(m, Past(s, h, t), s.pc + Size(h) + Length(rest), env)
  {
    hide Holds, Awake, SameKinds, Size, Length;
    LengthOfCons(h, rest);
    AwakePart(m, s.brch, s.pc, s.pc + Length(Cons(h, rest)), s.pc + Size(h), s.pc + Size(h) + Length(rest));
  }

  lemma ExecCons(m: Model, p: nat, h: Stmt, rest: Block, env: map<int, Macro>, d: nat, t: seq<Event>)
    requires d <= MAX_NUM_PATTERNS
    ensures Exec(m, p, Cons(h, rest), env, d, t) ==
            var r := ExecStmt(m, p, h, env, d, t);
            if r.status == Running then Exec(m, p + Size(h), rest, env, d, r.trace) else r
  {
    hide ExecStmt, Size;
  }

  lemma NothingRuns(m: Model, s: State, env: map<int, Macro>)
    requires s.Sized(m) && s.status == Running && s.pc >= 0
    ensures Lands(m, s, 0, s.(pc := s.pc + Length(Nil), trace := s.trace), Exec(m, s.pc, Nil, env, |s.patn|, s.trace))
    ensures Exec(m, s.pc, Nil, env, |s.patn|, s.trace).trace == s.trace
  {
    hide Run;
    NoTurns(m, s);
  }

  /** A block is done after finitely many turns. */
  lemma {:induction false} BlockRuns(m: Model, s: State, b: Block, env: map<int, Macro>) returns (n: nat)
    requires s.pc > 0 && Ready(m, s, s.pc + Length(b), env) && Spells(m.brch, s.pc, b)
    ensures var out := Exec(m, s.pc, b, env, |s.patn|, s.trace);
            Lands(m, s, n, s.(pc := s.pc + Length(b), trace := out.trace), out)
    decreases MAX_NUM_PATTERNS - |s.patn|, 0, b
  {
    hide Arg, Iterator, Exec, ExecStmt, Spells, Run, Step, Holds, Awake, SameKinds, ReadyFor, Length, Size;
    match b
    case Nil =>
      NothingRuns(m, s, env);
      n := 0;
    case Cons(h, rest) =>
      BlockParts(m, s, h, rest, env);
      LengthOfCons(h, rest);
      ExecCons(m, s.pc, h, rest, env, |s.patn|, s.trace);
      n := StmtRuns(m, s, h, env);
      var r := ExecStmt(m, s.pc, h, env, |s.patn|, s.trace);
      if r.status == Running {
        var s' := Past(s, h, r.trace);
        ReadyBehind(m, s, h, rest, env, r.trace);
        var k := BlockRuns(m, s', rest, env);
        var out := Exec(m, s'.pc, rest, env, |s.patn|, r.trace);
        LandsOn(m, s, n, s', k, s'.(pc := s'.pc + Length(rest), trace := out.trace), out);
        n := n + k;
      }
  }
}

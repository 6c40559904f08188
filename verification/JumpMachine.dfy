/**
 The Branch loop of a build, one Branch at a time: a program counter, a stack of
 pattern frames and a table of macros. What an ordinary Branch does is left open: it
 is recorded in a trace, and the arguments of later Branches may depend on that trace.
*/
module JumpMachine {
  import opened Basics
  import opened Branches

  const MAX_NUM_PATTERNS := 10
  const MAX_NUM_MACROS := 100

  /** What a build does that a later Branch can notice: a Branch was executed, or an
      iterator was given a value. */
  datatype Event = Ran(ibrch: nat) | Assigned(ipmtr: nat, value: int)

  /** A model as a check leaves it. `eval` is the argument that matters to a Branch, as
      the nearest integer, or None if the Branch fails; `pmtr` is the Parameter that a
      patbeg iterates. */
  datatype Model = Model(brch: seq<Brch>, eval: (nat, seq<Event>) -> Option<int>, pmtr: nat -> nat)

  /** The argument of Branch `p`, if it is reached after the events `t`. */
  function Arg(m: Model, p: nat, t: seq<Event>): Option<int> { m.eval(p, t) }

  /** The Parameter that the patbeg `p` iterates. */
  function Iterator(m: Model, p: nat): nat { m.pmtr(p) }

  datatype Frame = Frame(ipatbeg: nat, ipatend: int, ncopy: int, icopy: int, ipmtr: nat)

  datatype Fault =
    | BranchFailed
    | IllegalMacroIndex
    | StorageAlreadyUsed
    | NothingPreviouslyStored
    | PatternsNestedTooDeeply
    | Overrun // an access outside of patn[] or brch[]

  datatype RunStatus = Running | Failed(fault: Fault)

  datatype State = State(pc: int, brch: seq<Brch>, patn: seq<Frame>, macros: seq<int>,
                         trace: seq<Event>, status: RunStatus) {
    function Fail(f: Fault): State { this.(status := Failed(f)) }

    ghost predicate Sized(m: Model) {
      |brch| == |m.brch| && |macros| == MAX_NUM_MACROS + 1 && |patn| <= MAX_NUM_PATTERNS
      && forall i :: 0 <= i < |macros| ==> macros[i] < |m.brch|
    }
  }

  predicate Halted(m: Model, s: State) {
    s.status != Running || s.pc >= |m.brch|
  }

  /** The table of macros when nothing is stored. */
  function NoMacros(): (t: seq<int>)
    ensures |t| == MAX_NUM_MACROS + 1 && forall i :: 0 <= i < |t| ==> t[i] == -1
  {
    seq(MAX_NUM_MACROS + 1, _ => -1)
  }

  function Start(m: Model): (s: State)
    ensures s.Sized(m)
  {
    State(1, m.brch, [], NoMacros(), [], Running)
  }

  /** The patend that closes `i` open patbegs, from Branch `q` on, or -1. */
  function MatchEnd(b: seq<Brch>, q: nat, i: nat): (r: int)
    requires i > 0 && q <= |b|
    ensures r == -1 || q <= r < |b|
    decreases |b| - q
  {
    if q == |b| then -1
    else if b[q].typ.PatBeg? then MatchEnd(b, q + 1, i + 1)
    else if b[q].typ.PatEnd? then if i == 1 then q else MatchEnd(b, q + 1, i - 1)
    else MatchEnd(b, q + 1, i)
  }

  function DoMacBeg(s: State, v: int): State
    requires |s.macros| == MAX_NUM_MACROS + 1
  {
    if v < 1 || v > MAX_NUM_MACROS then s.Fail(IllegalMacroIndex)
    else if s.macros[v] > 0 then s.Fail(StorageAlreadyUsed)
    else s.(macros := s.macros[v := s.pc], pc := s.pc + 1)
  }

  function DoMacEnd(s: State): State {
    if s.patn == [] then s.Fail(Overrun)
    else s.(patn := s.patn[..|s.patn| - 1], pc := s.patn[|s.patn| - 1].ipatend + 1)
  }

  function DoRecall(s: State, v: int): State
    requires |s.macros| == MAX_NUM_MACROS + 1 && s.pc >= 0
  {
    if v < 1 || v > MAX_NUM_MACROS then s.Fail(IllegalMacroIndex)
    else if s.macros[v] <= 0 then s.Fail(NothingPreviouslyStored)
    else if |s.patn| >= MAX_NUM_PATTERNS then s.Fail(Overrun)
    else s.(patn := s.patn + [Frame(s.macros[v], s.pc, 1, 1, 0)], pc := s.macros[v] + 1)
  }

  function DoPatBeg(m: Model, s: State, v: int): State
    requires 0 < s.pc < |s.brch|
  {
    if |s.patn| >= MAX_NUM_PATTERNS then s.Fail(PatternsNestedTooDeeply)
    else
      var ipatend := MatchEnd(s.brch, s.pc + 1, 1);
      if v < 1 then s.(pc := ipatend + 1)
      else s.(patn := s.patn + [Frame(s.pc, ipatend, v, 1, Iterator(m, s.pc))],
              trace := s.trace + [Assigned(Iterator(m, s.pc), 1)], pc := s.pc + 1)
  }

  function DoPatEnd(s: State): State {
    if s.patn == [] then s.Fail(Overrun)
    else
      var d := |s.patn| - 1;
      var f := s.patn[d].(icopy := s.patn[d].icopy + 1);
      if f.icopy <= f.ncopy then
        s.(patn := s.patn[d := f], trace := s.trace + [Assigned(f.ipmtr, f.icopy)], pc := f.ipatbeg + 1)
      else s.(patn := s.patn[..d], pc := s.pc + 1)
  }

  /** One turn of the Branch loop. */
  function Step(m: Model, s: State): (r: State)
    requires s.Sized(m) && !Halted(m, s)
    ensures r.Sized(m)
  {
    if s.pc < 1 then s.Fail(Overrun)
    else
      var b := s.brch[s.pc];
      if b.actv == Deferred then s.(brch := s.brch[s.pc := b.(actv := Active)], pc := s.pc + 1)
      else if b.actv != Active then s.(pc := s.pc + 1)
      else if b.typ.MacEnd? then DoMacEnd(s)
      else if b.typ.PatEnd? then DoPatEnd(s)
      else
        match Arg(m, s.pc, s.trace)
        case None => s.Fail(BranchFailed)
        case Some(v) =>
          if b.typ.MacBeg? then DoMacBeg(s, v)
          else if b.typ.Recall? then DoRecall(s, v)
          else if b.typ.PatBeg? then DoPatBeg(m, s, v)
          else s.(trace := s.trace + [Ran(s.pc)], pc := s.pc + 1)
  }

  /** At most `n` turns of the Branch loop. */
  function Run(m: Model, s: State, n: nat): (r: State)
    requires s.Sized(m)
    ensures r.Sized(m)
    decreases n
  {
    if n == 0 || Halted(m, s) then s else Run(m, Step(m, s), n - 1)
  }

  lemma {:induction false} RunOn(m: Model, s: State, n: nat, k: nat)
    requires s.Sized(m)
    ensures Run(m, s, n + k) == Run(m, Run(m, s, n), k)
    decreases n
  {
    hide Step;
    if n > 0 && !Halted(m, s) { RunOn(m, Step(m, s), n - 1, k); }
  }

  lemma RunOne(m: Model, s: State)
    requires s.Sized(m) && !Halted(m, s)
    ensures Run(m, s, 1) == Step(m, s)
  {
    hide Step;
    assert Run(m, Step(m, s), 0) == Step(m, s);
  }

  lemma NoTurns(m: Model, s: State)
    requires s.Sized(m)
    ensures Run(m, s, 0) == s
  {
  }

  lemma NoMoreTurns(m: Model, s: State, n: nat)
    requires s.Sized(m) && Halted(m, s)
    ensures Run(m, s, n) == s
  {
  }

  lemma HaltedStays(m: Model, s: State, k: nat, n: nat)
    requires s.Sized(m) && k <= n && Halted(m, Run(m, s, k))
    ensures Run(m, s, n) == Run(m, s, k)
  {
    hide Step;
    RunOn(m, s, k, n - k);
  }
}

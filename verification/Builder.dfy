/** The Branch loop as it is written: arrays of frames and of macros, and a Branch number
    that the jumps move. */
module Builder {
  import opened Basics
  import opened Branches
  import Builds
  import opened JumpMachine
  import Structured

  class Loop {
    var brch: seq<Brch>
    var ibrch: int
    const patn: array<Frame>
    var npatn: nat
    const macros: array<int>
    var trace: seq<Event>
    var status: RunStatus

    ghost predicate Valid()
      reads this
    {
      patn.Length == MAX_NUM_PATTERNS && macros.Length == MAX_NUM_MACROS + 1 && npatn <= MAX_NUM_PATTERNS
    }

    /** The state of the loop, at the head of a turn. */
    ghost function Now(): State
      reads this, patn, macros
      requires Valid()
    {
      State(ibrch, brch, patn[..npatn], macros[..], trace, status)
    }

    /** The state of the loop at the head of the next turn. */
    ghost function Next(): State
      reads this, patn, macros
      requires Valid()
    {
      if status == Running then Now().(pc := ibrch + 1) else Now()
    }

    constructor (b: seq<Brch>)
      ensures Valid() && fresh(patn) && fresh(macros) && brch == b
    {
      brch, ibrch, npatn, trace, status := b, 1, 0, [], Running;
      patn := new Frame[MAX_NUM_PATTERNS](_ => Frame(0, 0, 0, 0, 0));
      macros := new int[MAX_NUM_MACROS + 1](_ => -1);
    }

    method Fail(f: Fault)
      requires Valid()
      modifies this`status
      ensures Valid() && status == Failed(f)
    {
      status := Failed(f);
    }

    method MacBeg(imacro: int)
      requires Valid() && status == Running
      modifies this`status, macros
      ensures Valid() && Next() == DoMacBeg(old(Now()), imacro)
      ensures status == Failed(IllegalMacroIndex) <==> imacro < 1 || imacro > 100
    {
      if imacro < 1 || imacro > MAX_NUM_MACROS {
        Fail(IllegalMacroIndex);
      } else if macros[imacro] > 0 {
        Fail(StorageAlreadyUsed);
      } else {
        macros[imacro] := ibrch;
      }
    }

    method MacEnd()
      requires Valid() && status == Running
      modifies this`status, this`npatn, this`ibrch
      ensures Valid() && Next() == DoMacEnd(old(Now()))
    {
      if npatn == 0 {
        Fail(Overrun);
      } else {
        npatn := npatn - 1;
        ibrch := patn[npatn].ipatend;
      }
    }

    method Recall(imacro: int)
      requires Valid() && status == Running && ibrch > 0
      modifies this`status, this`npatn, this`ibrch, patn
      ensures Valid() && Next() == DoRecall(old(Now()), imacro)
      ensures status == Failed(IllegalMacroIndex) <==> imacro < 1 || imacro > 100
    {
      if imacro < 1 || imacro > MAX_NUM_MACROS {
        Fail(IllegalMacroIndex);
      } else if macros[imacro] <= 0 {
        Fail(NothingPreviouslyStored);
      } else if npatn >= MAX_NUM_PATTERNS {
        Fail(Overrun);
      } else {
        patn[npatn] := Frame(macros[imacro], ibrch, 1, 1, 0);
        npatn := npatn + 1;
        ibrch := macros[imacro];
      }
    }

    /** The patend that matches the patbeg at the current Branch, or -1. */
    method FindPatEnd() returns (ipatend: int)
      requires 0 < ibrch < |brch|
      ensures ipatend == MatchEnd(brch, ibrch + 1, 1)
    {
      ipatend := -1;
      var i: nat := 1;
      var ibrchl: nat := ibrch + 1;
      while ibrchl < |brch|
        invariant ibrchl <= |brch| && i > 0
        invariant ipatend == -1
        invariant MatchEnd(brch, ibrch + 1, 1) == MatchEnd(brch, ibrchl, i)
      {
        if brch[ibrchl].typ.PatBeg? {
          i := i + 1;
        } else if brch[ibrchl].typ.PatEnd? {
          i := i - 1;
          if i == 0 {
            ipatend := ibrchl;
            return;
          }
        }
        ibrchl := ibrchl + 1;
      }
    }

    method PatBeg(m: Model, ncopy: int)
      requires Valid() && status == Running && 0 < ibrch < |brch|
      modifies this`status, this`npatn, this`ibrch, this`trace, patn
      ensures Valid() && Next() == DoPatBeg(m, old(Now()), ncopy)
      ensures status == Failed(PatternsNestedTooDeeply) <==> old(npatn) >= 10
    {
      if npatn >= MAX_NUM_PATTERNS {
        Fail(PatternsNestedTooDeeply);
        return;
      }
      var ipatend := FindPatEnd();
      patn[npatn] := Frame(ibrch, ipatend, ncopy, 1, Iterator(m, ibrch));
      if ncopy < 1 {
        ibrch := ipatend;
      } else {
        trace := trace + [Assigned(patn[npatn].ipmtr, 1)];
        npatn := npatn + 1;
      }
    }

    method PatEnd()
      requires Valid() && status == Running
      modifies this`status, this`npatn, this`ibrch, this`trace, patn
      ensures Valid() && Next() == DoPatEnd(old(Now()))
    {
      if npatn == 0 {
        Fail(Overrun);
        return;
      }
      var d := npatn - 1;
      patn[d] := patn[d].(icopy := patn[d].icopy + 1);
      if patn[d].icopy <= patn[d].ncopy {
        trace := trace + [Assigned(patn[d].ipmtr, patn[d].icopy)];
        ibrch := patn[d].ipatbeg;
      } else {
        npatn := npatn - 1;
      }
    }

    /** Execute the current Branch. */
    method Execute(m: Model)
      requires Valid() && Now().Sized(m) && !Halted(m, Now())
      modifies this, patn, macros
      ensures Valid() && Next() == Step(m, old(Now()))
    {
      hide MatchEnd, Arg, Iterator;
      if ibrch < 1 {
        Fail(Overrun);
        return;
      }
      var b := brch[ibrch];
      if b.actv == Deferred {
        brch := brch[ibrch := b.(actv := Active)];
        return;
      }
      if b.actv != Active { return; }
      if b.typ.MacEnd? { MacEnd(); return; }
      if b.typ.PatEnd? { PatEnd(); return; }
      var arg := Arg(m, ibrch, trace);
      if arg.None? {
        Fail(BranchFailed);
      } else if b.typ.MacBeg? {
        MacBeg(arg.value);
      } else if b.typ.Recall? {
        Recall(arg.value);
      } else if b.typ.PatBeg? {
        PatBeg(m, arg.value);
      } else {
        trace := trace + [Ran(ibrch)];
      }
    }

    method Reset()
      requires Valid()
      modifies this`ibrch, this`npatn, this`trace, this`status, macros
      ensures Valid() && Now() == State(1, brch, [], NoMacros(), [], Running)
    {
      npatn := 0;
      var imacro := 0;
      while imacro <= MAX_NUM_MACROS
        invariant 0 <= imacro <= macros.Length && npatn == 0 && Valid()
        invariant forall i :: 0 <= i < imacro ==> macros[i] == -1
      {
        macros[imacro] := -1;
        imacro := imacro + 1;
      }
      ibrch, trace, status := 1, [], Running;
      assert patn[..npatn] == [] && macros[..] == NoMacros();
    }

    /** Build a freshly checked model: the loop ends, and has done what the program that
        the Branches spell does. */
    method Build(m: Model, ghost g: Structured.Program)
      requires Valid() && brch == m.brch && |m.brch| > 0
      requires Builds.Fresh(m) && Structured.SpellsProgram(m.brch, 1, g)
      modifies this, patn, macros
      ensures Valid()
      ensures var out := Structured.ExecProgram(m, 1, g, map[], 0, []);
              trace == out.trace && status == out.status
      ensures Structured.OnlyLoops(g) && Structured.ProgramDepth(g) <= 10 ==> status != Failed(PatternsNestedTooDeeply)
      ensures Structured.LoopsWithoutCalls(g) && Structured.Eager(m) ==>
                status == if Structured.ProgramDepth(g) > 10 then Failed(PatternsNestedTooDeeply) else Running
    {
      hide Structured.Eager, Step, Builds.Fresh, Structured.SpellsProgram, Structured.ExecProgram;
      Reset();
      ghost var n := Builds.BuildRunsProgram(m, g);
      ghost var s := Start(m);
      ghost var k: nat := 0;
      assert Now() == s;
      while status == Running && ibrch < |m.brch|
        invariant Valid() && Now().Sized(m) && Now() == Run(m, s, k)
        invariant k <= n
        decreases n - k
      {
        StillRunning(m, s, k, n);
        Execute(m);
        if status == Running { ibrch := ibrch + 1; }
        TakeTurn(m, s, k);
        k := k + 1;
      }
      HaltedStays(m, s, k, n);
      if Structured.OnlyLoops(g) && Structured.ProgramDepth(g) <= 10 { Structured.ShallowProgram(m, 1, g, []); }
      if Structured.LoopsWithoutCalls(g) && Structured.Eager(m) { Structured.EagerProgram(m, 1, g, []); }
    }
  }

  lemma StillRunning(m: Model, s: State, k: nat, n: nat)
    requires s.Sized(m) && k <= n && !Halted(m, Run(m, s, k)) && Halted(m, Run(m, s, n))
    ensures k < n
  {
    hide Run, Step;
  }

  lemma TakeTurn(m: Model, s: State, k: nat)
    requires s.Sized(m) && !Halted(m, Run(m, s, k))
    ensures Run(m, s, k + 1) == Step(m, Run(m, s, k))
  {
    hide Run, Step;
    RunOn(m, s, k, 1);
    RunOne(m, Run(m, s, k));
  }
}

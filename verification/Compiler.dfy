/**
 The operator-stack compiler from tokens to Rpn-code, and the proof that its
 output for a written expression is that expression in postorder (commas, which
 may turn up anywhere in the code, aside).
*/
module Compiler {
  import opened Basics
  import opened Chains
  import opened Grammar
  import opened Tokens

  // ----- what the compiler computes -----

  datatype State = State(out: seq<Token>, ops: seq<Token>)

  /** The stack entries at which popping stops: an open parenthesis, a function,
      or an operator that binds less tightly than `level`. */
  predicate Stops(entry: Token, level: nat) {
    entry.OpenP? || entry.Func? || (entry.IsOp() && entry.Prec() < level)
  }

  /** Moves operators to the code until one stops that. */
  function PopOps(st: State, level: nat): State
    decreases |st.ops|
  {
    if st.ops == [] || Stops(Top(st.ops), level) then st else PopOps(PopOne(st), level)
  }

  function Top(ops: seq<Token>): Token
    requires ops != []
  {
    ops[|ops| - 1]
  }

  function PopOne(st: State): (r: State)
    requires st.ops != []
    ensures |r.ops| + 1 == |st.ops| && |r.out| == |st.out| + 1
  {
    State(st.out + [Top(st.ops)], st.ops[..|st.ops| - 1])
  }

  /** Moves operators to the code until the open parenthesis is gone, and the function in front of it. */
  function Close(st: State): State
    decreases |st.ops|
  {
    if st.ops == [] then st
    else if Top(st.ops).OpenP? then
      var rest := st.(ops := st.ops[..|st.ops| - 1]);
      if rest.ops != [] && Top(rest.ops).Func? then PopOne(rest) else rest
    else Close(PopOne(st))
  }

  /** The level down to which a token pops: its own for an operator, everything for a comma. */
  function Level(t: Token): nat { if t.IsOp() then t.Prec() else 0 }

  function Push(st: State, t: Token): State { st.(ops := st.ops + [t]) }

  function Step(st: State, t: Token): State {
    if t.Number? || t.Name? then st.(out := st.out + [t])
    else if t.IsOp() || t.Comma? then Push(PopOps(st, Level(t)), t)
    else if t.OpenP? || t.Func? then Push(st, t)
    else if t.CloseP? then Close(st)
    else st
  }

  function Run(st: State, ts: seq<Token>): State {
    if ts == [] then st else Step(Run(st, ts[..|ts| - 1]), ts[|ts| - 1])
  }

  function Flush(st: State): State
    decreases |st.ops|
  {
    if st.ops == [] then st else Flush(PopOne(st))
  }

  function Rpn(ts: seq<Token>): seq<Token> {
    Flush(Run(State([], []), ts)).out + [End]
  }

  // ----- postorder -----

  function Post(e: Expr): seq<Token> {
    match e
    case Leaf(t) => [t]
    case Bin(op, l, r) => Post(l) + Post(r) + [op]
    case Group(es) => PostAll(es)
    case Call(f, es) => PostAll(es) + [Func(f)]
  }

  function PostAll(es: Exprs): seq<Token> {
    match es
    case One(e) => Post(e)
    case More(e, rest) => Post(e) + PostAll(rest)
  }

  function NoCommas(code: seq<Token>): seq<Token> {
    if code == [] then []
    else NoCommas(code[..|code| - 1]) + if Top(code).Comma? then [] else [Top(code)]
  }

  lemma {:induction false} NoCommasConcat(a: seq<Token>, b: seq<Token>)
    ensures NoCommas(a + b) == NoCommas(a) + NoCommas(b)
  {
    if b == [] {
      assert a + b == a;
    } else {
      NoCommasConcat(a, b[..|b| - 1]);
      assert (a + b)[..|a + b| - 1] == a + b[..|b| - 1];
    }
  }

  lemma NoCommasSnoc(a: seq<Token>, t: Token)
    ensures NoCommas(a + [t]) == NoCommas(a) + if t.Comma? then [] else [t]
  {
    assert (a + [t])[..|a|] == a;
  }

  lemma {:induction false} RunConcat(st: State, a: seq<Token>, b: seq<Token>)
    ensures Run(st, a + b) == Run(Run(st, a), b)
  {
    if b == [] {
      assert a + b == a;
    } else {
      RunConcat(st, a, b[..|b| - 1]);
      assert (a + b)[..|a + b| - 1] == a + b[..|b| - 1];
    }
  }

  lemma RunSnoc(st: State, a: seq<Token>, t: Token)
    ensures Run(st, a + [t]) == Step(Run(st, a), t)
  {
    assert (a + [t])[..|a|] == a;
  }

  /** The operators of `e` that are still on the stack when its tokens have been read. */
  function Pending(e: Expr): seq<Token> {
    if e.Bin? then [e.op] + Pending(e.right) else []
  }

  /** The code of `e` that has been emitted by then. */
  function Emitted(e: Expr): seq<Token> {
    if e.Bin? then Emitted(e.left) + Reverse(Pending(e.left)) + Emitted(e.right) else Post(e)
  }

  function Reverse(ts: seq<Token>): seq<Token> {
    if ts == [] then [] else [Top(ts)] + Reverse(ts[..|ts| - 1])
  }

  lemma {:induction false} ReverseFirst(t: Token, ts: seq<Token>)
    ensures Reverse([t] + ts) == Reverse(ts) + [t]
  {
    if ts != [] {
      ReverseFirst(t, ts[..|ts| - 1]);
      assert ([t] + ts)[..|ts|] == [t] + ts[..|ts| - 1];
    }
  }

  lemma {:induction false} EmittedThenPending(e: Expr)
    ensures Post(e) == Emitted(e) + Reverse(Pending(e))
  {
    if e.Bin? {
      EmittedThenPending(e.left);
      EmittedThenPending(e.right);
      ReverseFirst(e.op, Pending(e.right));
    }
  }

  lemma {:induction false} PendingBinds(e: Expr)
    requires Shaped(e)
    ensures forall t :: t in Pending(e) ==> t.IsOp() && t.Prec() >= Prec(e)
  {
    if e.Bin? { PendingBinds(e.right); }
  }

  /** Everything `ops` has on top of `base` is moved to the code, last in first out. */
  lemma {:induction false} PopPending(out: seq<Token>, base: seq<Token>, pend: seq<Token>, level: nat)
    requires forall t :: t in pend ==> !Stops(t, level)
    ensures PopOps(State(out, base + pend), level) == PopOps(State(out + Reverse(pend), base), level)
    decreases pend
  {
    if pend == [] {
      assert base + pend == base && out + Reverse(pend) == out;
    } else {
      var init, t := pend[..|pend| - 1], Top(pend);
      assert (base + pend)[..|base + pend| - 1] == base + init;
      PopPending(out + [t], base, init, level);
      assert out + [t] + Reverse(init) == out + Reverse(pend);
    }
  }

  /** The stack without a comma on its top. */
  function Bare(ops: seq<Token>): seq<Token> {
    if ops != [] && Top(ops).Comma? then ops[..|ops| - 1] else ops
  }

  /** Operators of level `level` and tighter stay on top of this stack. */
  predicate Ready(ops: seq<Token>, level: nat) {
    Bare(ops) != [] && !Top(Bare(ops)).Func? && Stops(Top(Bare(ops)), level)
  }

  /** An operator or comma pops what is pending, and a comma below it, and nothing more. */
  lemma PopToBase(out: seq<Token>, base: seq<Token>, pend: seq<Token>, level: nat)
    requires Ready(base, level) && forall t :: t in pend ==> !Stops(t, level)
    ensures PopOps(State(out, base + pend), level).ops == Bare(base)
    ensures NoCommas(PopOps(State(out, base + pend), level).out) == NoCommas(out) + NoCommas(Reverse(pend))
  {
    PopPending(out, base, pend, level);
    NoCommasConcat(out, Reverse(pend));
    if Top(base).Comma? {
      NoCommasSnoc(out + Reverse(pend), Comma);
    }
  }

  lemma {:induction false} ReverseHasNoCommas(ts: seq<Token>)
    requires forall t :: t in ts ==> !t.Comma?
    ensures NoCommas(Reverse(ts)) == Reverse(ts)
  {
    if ts != [] {
      ReverseHasNoCommas(ts[..|ts| - 1]);
      NoCommasConcat([Top(ts)], Reverse(ts[..|ts| - 1]));
    }
  }

  /** Reading `ts` leaves the stack `ops` and emits `code`, commas aside. */
  predicate Compiles(st: State, ts: seq<Token>, ops: seq<Token>, code: seq<Token>) {
    Run(st, ts).ops == ops && NoCommas(Run(st, ts).out) == NoCommas(st.out) + code
  }

  lemma CompilesJoin(st: State, a: seq<Token>, opsA: seq<Token>, codeA: seq<Token>,
                     b: seq<Token>, opsB: seq<Token>, codeB: seq<Token>)
    requires Compiles(st, a, opsA, codeA) && Compiles(Run(st, a), b, opsB, codeB)
    ensures Compiles(st, a + b, opsB, codeA + codeB)
  {
    hide Run, NoCommas;
    RunConcat(st, a, b);
    Assoc(NoCommas(st.out), codeA, codeB);
  }

  lemma CompilesStep(st: State, t: Token, ops: seq<Token>, code: seq<Token>)
    requires Step(st, t).ops == ops && NoCommas(Step(st, t).out) == NoCommas(st.out) + code
    ensures Compiles(st, [t], ops, code)
  {
    RunSnoc(st, [], t);
    assert [] + [t] == [t];
  }

  lemma CompilesPush(st: State, t: Token)
    requires t.OpenP? || t.Func?
    ensures Run(st, [t]) == Push(st, t) && Compiles(st, [t], st.ops + [t], [])
  {
    hide PopOps, Close, NoCommas;
    RunSnoc(st, [], t);
    assert [] + [t] == [t];
    assert NoCommas(st.out) + [] == NoCommas(st.out);
  }

  /** Reading the tokens of an expression, on any stack its operators cannot pop. */
  lemma {:induction false} CompilesExpr(st: State, e: Expr)
    requires Shaped(e) && Ready(st.ops, Prec(e))
    ensures Compiles(st, Written(e), (if e.Bin? then Bare(st.ops) else st.ops) + Pending(e), Emitted(e))
    decreases e, 1
  {
    match e
    case Leaf(t) =>
      RunSnoc(st, [], t);
      assert [] + [t] == [t];
      NoCommasSnoc(st.out, t);
    case Bin(_, _, _) => CompilesBin(st, e);
    case Group(es) => CompilesGroup(st, e);
    case Call(f, es) => CompilesCall(st, e);
  }

  lemma {:induction false} CompilesBin(st: State, e: Expr)
    requires e.Bin? && Shaped(e) && Ready(st.ops, Prec(e))
    ensures Compiles(st, Written(e), Bare(st.ops) + Pending(e), Emitted(e))
    decreases e, 0
  {
    var base := if e.left.Bin? then Bare(st.ops) else st.ops;
    CompilesExpr(st, e.left);
    CompilesInfix(Run(st, Written(e.left)), base, e.left, e.op, Prec(e));
    CompilesJoin(st, Written(e.left), base + Pending(e.left), Emitted(e.left),
                 [e.op], Bare(st.ops) + [e.op], Reverse(Pending(e.left)));
    CompilesRight(st, e, Bare(st.ops));
  }

  lemma {:induction false} CompilesRight(st: State, e: Expr, base: seq<Token>)
    requires e.Bin? && Shaped(e)
    requires Compiles(st, Written(e.left) + [e.op], base + [e.op], Emitted(e.left) + Reverse(Pending(e.left)))
    ensures Compiles(st, Written(e), base + Pending(e), Emitted(e))
    decreases e.right, 2
  {
    var ts := Written(e.left) + [e.op];
    CompilesExpr(Run(st, ts), e.right);
    CompilesJoin(st, ts, base + [e.op], Emitted(e.left) + Reverse(Pending(e.left)),
                 Written(e.right), base + [e.op] + Pending(e.right), Emitted(e.right));
    Assoc(base, [e.op], Pending(e.right));
    Assoc(Emitted(e.left), Reverse(Pending(e.left)), Emitted(e.right));
  }

  /** An operator or a comma after an operand. */
  lemma CompilesInfix(st: State, base: seq<Token>, l: Expr, t: Token, level: nat)
    requires Shaped(l) && st.ops == base + Pending(l) && Ready(base, level)
    requires (t.IsOp() || t.Comma?) && level == Level(t) <= Prec(l)
    ensures Compiles(st, [t], Bare(base) + [t], Reverse(Pending(l)))
  {
    hide Run, PopOps, Reverse, NoCommas, Pending, Ready, Bare;
    PendingBinds(l);
    PopToBase(st.out, base, Pending(l), level);
    ReverseHasNoCommas(Pending(l));
    CompilesStep(st, t, Bare(base) + [t], Reverse(Pending(l)));
  }

  lemma CompilesBehind(st: State, t: Token, ts: seq<Token>, ops: seq<Token>, code: seq<Token>)
    requires t.OpenP? || t.Func?
    requires Compiles(Push(st, t), ts, ops, code)
    ensures Compiles(st, [t] + ts, ops, code)
  {
    CompilesPush(st, t);
    CompilesJoin(st, [t], st.ops + [t], [], ts, ops, code);
    assert [] + code == code;
  }

  lemma {:induction false} CompilesGroup(st: State, e: Expr)
    requires e.Group? && Shaped(e) && Ready(st.ops, 4)
    ensures Compiles(st, Written(e), st.ops, Post(e))
    decreases e, 0
  {
    CompilesParens(Push(st, OpenP), st.ops, e.items);
    CompilesBehind(st, OpenP, WrittenAll(e.items) + [CloseP], st.ops, Post(e));
    assert [OpenP] + (WrittenAll(e.items) + [CloseP]) == Written(e);
  }

  lemma {:induction false} CompilesCall(st: State, e: Expr)
    requires e.Call? && Shaped(e)
    ensures Compiles(st, Written(e), st.ops, Post(e))
    decreases e, 0
  {
    var st1 := Push(st, Func(e.name));
    CompilesParens(Push(st1, OpenP), st1.ops, e.args);
    CompilesBehind(st1, OpenP, WrittenAll(e.args) + [CloseP], st.ops, Post(e));
    CompilesBehind(st, Func(e.name), [OpenP] + (WrittenAll(e.args) + [CloseP]), st.ops, Post(e));
    assert [Func(e.name)] + ([OpenP] + (WrittenAll(e.args) + [CloseP])) == Written(e);
  }

  /** What a closing parenthesis does to `below`, the part of the stack under the open one. */
  function Closed(below: seq<Token>): seq<Token> {
    if below != [] && Top(below).Func? then below[..|below| - 1] else below
  }

  function Applied(below: seq<Token>): seq<Token> {
    if below != [] && Top(below).Func? then [Top(below)] else []
  }

  lemma CloseBare(st: State, below: seq<Token>)
    requires st.ops == below + [OpenP]
    ensures Close(st).ops == Closed(below) && NoCommas(Close(st).out) == NoCommas(st.out) + Applied(below)
  {
    assert (below + [OpenP])[..|below|] == below;
    if below != [] && Top(below).Func? { NoCommasSnoc(st.out, Top(below)); }
  }

  lemma CloseOverComma(out: seq<Token>, below: seq<Token>, base: seq<Token>)
    requires Bare(base) == below + [OpenP]
    ensures Close(State(out, base)).ops == Closed(below)
    ensures NoCommas(Close(State(out, base)).out) == NoCommas(out) + Applied(below)
  {
    if Top(base).Comma? {
      NoCommasSnoc(out, Comma);
      CloseBare(PopOne(State(out, base)), below);
    } else {
      CloseBare(State(out, base), below);
    }
  }

  lemma CloseOne(out: seq<Token>, ops: seq<Token>, t: Token)
    requires !t.OpenP?
    ensures Close(State(out, ops + [t])) == Close(State(out + [t], ops))
  {
    assert (ops + [t])[..|ops|] == ops;
  }

  /** Closing empties what is pending first. */
  lemma {:induction false} ClosePending(out: seq<Token>, base: seq<Token>, pend: seq<Token>)
    requires forall t :: t in pend ==> !t.OpenP?
    ensures Close(State(out, base + pend)) == Close(State(out + Reverse(pend), base))
    decreases pend
  {
    if pend == [] {
      assert base + pend == base && out + Reverse(pend) == out;
    } else {
      var init, t := pend[..|pend| - 1], Top(pend);
      assert t in pend && base + pend == base + init + [t];
      CloseOne(out, base + init, t);
      ClosePending(out + [t], base, init);
      assert out + [t] + Reverse(init) == out + Reverse(pend);
    }
  }

  lemma CloseEmitted(out: seq<Token>, code: seq<Token>, clean: seq<Token>, below: seq<Token>, base: seq<Token>,
                     r: State)
    requires Bare(base) == below + [OpenP] && r == Close(State(out + code, base)) && NoCommas(code) == clean
    ensures r.ops == Closed(below) && NoCommas(r.out) == NoCommas(out) + (clean + Applied(below))
  {
    CloseOverComma(out + code, below, base);
    NoCommasConcat(out, code);
    Assoc(NoCommas(out), clean, Applied(below));
  }

  lemma CompilesClose(st: State, below: seq<Token>, base: seq<Token>, pend: seq<Token>)
    requires Bare(base) == below + [OpenP] && st.ops == base + pend
    requires forall t :: t in pend ==> t.IsOp()
    ensures Compiles(st, [CloseP], Closed(below), Reverse(pend) + Applied(below))
  {
    hide Close, NoCommas, Reverse, Closed, Applied;
    ClosePending(st.out, base, pend);
    ReverseHasNoCommas(pend);
    CloseEmitted(st.out, Reverse(pend), Reverse(pend), below, base, Close(st));
    CompilesStep(st, CloseP, Closed(below), Reverse(pend) + Applied(below));
  }

  /** Reading a list of expressions and the parenthesis that closes it. */
  lemma {:induction false} CompilesParens(st: State, below: seq<Token>, es: Exprs)
    requires ShapedAll(es) && Bare(st.ops) == below + [OpenP]
    ensures Compiles(st, WrittenAll(es) + [CloseP], Closed(below), PostAll(es) + Applied(below))
    decreases es
  {
    var e := es.head;
    var base := if e.Bin? then Bare(st.ops) else st.ops;
    CompilesExpr(st, e);
    EmittedThenPending(e);
    var st1 := Run(st, Written(e));
    if es.One? {
      PendingBinds(e);
      CompilesClose(st1, below, base, Pending(e));
      CompilesJoin(st, Written(e), base + Pending(e), Emitted(e),
                   [CloseP], Closed(below), Reverse(Pending(e)) + Applied(below));
      Assoc(Emitted(e), Reverse(Pending(e)), Applied(below));
    } else {
      CompilesInfix(st1, base, e, Comma, 0);
      CompilesJoin(st, Written(e), base + Pending(e), Emitted(e),
                   [Comma], Bare(base) + [Comma], Reverse(Pending(e)));
      RunConcat(st, Written(e), [Comma]);
      CompilesMore(st, below, es);
    }
  }

  lemma {:induction false} CompilesMore(st: State, below: seq<Token>, es: Exprs)
    requires es.More? && ShapedAll(es)
    requires Compiles(st, Written(es.head) + [Comma], below + [OpenP, Comma], Post(es.head))
    ensures Compiles(st, WrittenAll(es) + [CloseP], Closed(below), PostAll(es) + Applied(below))
    decreases es, 0
  {
    var ts := Written(es.head) + [Comma];
    CompilesParens(Run(st, ts), below, es.tail);
    CompilesJoin(st, ts, below + [OpenP, Comma], Post(es.head),
                 WrittenAll(es.tail) + [CloseP], Closed(below), PostAll(es.tail) + Applied(below));
    assert ts + (WrittenAll(es.tail) + [CloseP]) == WrittenAll(es) + [CloseP];
    Assoc(Post(es.head), PostAll(es.tail), Applied(below));
  }

  /** Compiler correctness: whatever the precedences, parentheses, commas and calls,
      the code without its commas is the postorder of the tree. */
  lemma {:induction false} CodeIsPostorder(es: Exprs)
    requires ShapedAll(es)
    ensures NoCommas(Rpn([OpenP] + WrittenAll(es) + [CloseP])) == PostAll(es) + [End]
  {
    hide Run, WrittenAll, PostAll, NoCommas;
    var st := State([], []);
    CompilesParens(Push(st, OpenP), [], es);
    CompilesBehind(st, OpenP, WrittenAll(es) + [CloseP], [], PostAll(es));
    Assoc([OpenP], WrittenAll(es), [CloseP]);
    NoCommasSnoc(Run(st, [OpenP] + WrittenAll(es) + [CloseP]).out, End);
    NoCommasOfNothing(PostAll(es));
  }

  lemma NoCommasOfNothing(code: seq<Token>)
    ensures NoCommas([]) + code == code
  {
  }

  // ----- precedence, operator by operator -----

  /** The code of a chain: that of what is left of its root, that of what is right of it, and
      the root. */
  function ChainPost(es: seq<Expr>, ops: seq<Token>): seq<Token>
    requires |es| == |ops| + 1 && AllOps(ops)
    decreases |ops|
  {
    if ops == [] then Post(es[0])
    else
      var r := Root(ops);
      ChainPost(es[..r + 1], ops[..r]) + ChainPost(es[r + 1..], ops[r + 1..]) + [ops[r]]
  }

  lemma {:induction false} PostOfChain(es: seq<Expr>, ops: seq<Token>)
    requires |es| == |ops| + 1 && AllOps(ops)
    ensures Post(ChainTree(es, ops)) == ChainPost(es, ops)
    decreases |ops|
  {
    hide Root;
    if ops != [] {
      var r := Root(ops);
      PostOfChain(es[..r + 1], ops[..r]);
      PostOfChain(es[r + 1..], ops[r + 1..]);
    }
  }

  /** However many operators stand between however many operands: what is compiled last is
      the last plus or minus, if there is one; or else the last times or divide; or else the
      last power. */
  lemma CodeOfChain(es: seq<Expr>, ops: seq<Token>)
    requires IsChain(es, ops)
    ensures NoCommas(Rpn([OpenP] + ChainWritten(es, ops) + [CloseP])) == ChainPost(es, ops) + [End]
  {
    hide Rpn, NoCommas, ChainTree, ChainPost, ChainWritten, Root;
    ChainIsShaped(es, ops);
    var e := ChainTree(es, ops);
    assert ShapedAll(One(e)) && WrittenAll(One(e)) == Written(e) && PostAll(One(e)) == Post(e);
    CodeIsPostorder(One(e));
    PostOfChain(es, ops);
  }

  /** The code of a chain is in the order in which its operators are applied. */
  ghost predicate OrderedAsChain(token: seq<Token>, code: seq<Token>) {
    forall es, ops :: IsChain(es, ops) && token == [OpenP] + ChainWritten(es, ops) + [CloseP] ==>
      NoCommas(code) == ChainPost(es, ops) + [End]
  }

  lemma RpnIsOrdered(token: seq<Token>)
    ensures OrderedAsChain(token, Rpn(token))
  {
    hide Rpn, NoCommas, ChainPost, ChainWritten;
    forall es, ops | IsChain(es, ops) && token == [OpenP] + ChainWritten(es, ops) + [CloseP]
      ensures NoCommas(Rpn(token)) == ChainPost(es, ops) + [End]
    {
      CodeOfChain(es, ops);
    }
  }

  predicate IsOperand(t: Token) { t.Number? || t.Name? }

  /** `q` is applied before `p`, if `p` is the operator on the left. */
  predicate Before(p: Token, q: Token) {
    (p in {Plus, Minus} && q in {Times, Divide, Power}) || (p in {Times, Divide} && q == Power)
  }

  lemma LastOfTwo(p: Token, q: Token, ts: set<Token>)
    ensures LastOf([p, q], ts) == if q in ts then 1 else if p in ts then 0 else -1
  {
    assert [p, q][..1] == [p] && [p][..0] == [];
    assert LastOf([], ts) == -1;
    assert LastOf([p], ts) == if p in ts then 0 else -1;
  }

  lemma RootOfTwo(p: Token, q: Token)
    requires p in OPERATORS && q in OPERATORS
    ensures AllOps([p, q]) && Root([p, q]) == if Before(p, q) then 0 else 1
  {
    hide LastOf;
    LastOfTwo(p, q, {Plus, Minus});
    LastOfTwo(p, q, {Times, Divide});
  }

  lemma PostOfTwo(a: Expr, b: Expr, c: Expr, p: Token, q: Token)
    requires p in OPERATORS && q in OPERATORS
    ensures AllOps([p, q])
    ensures ChainPost([a, b, c], [p, q]) ==
            if Before(p, q) then Post(a) + (Post(b) + Post(c) + [q]) + [p] else (Post(a) + Post(b) + [p]) + Post(c) + [q]
  {
    hide Post, Root;
    RootOfTwo(p, q);
    PostOfOne(a, b, p);
    PostOfOne(b, c, q);
    assert [a, b, c][..1] == [a] && [a, b, c][1..] == [b, c] && [a, b, c][..2] == [a, b] && [a, b, c][2..] == [c];
    assert [p, q][..0] == [] && [p, q][1..] == [q] && [p, q][..1] == [p] && [p, q][2..] == [];
  }

  lemma PostOfOne(a: Expr, b: Expr, p: Token)
    requires p in OPERATORS
    ensures AllOps([p]) && ChainPost([a, b], [p]) == Post(a) + Post(b) + [p]
  {
    hide Post;
    assert [a, b][..1] == [a] && [a, b][1..] == [b] && [p][..0] == [] && [p][1..] == [];
  }

  /** Two operators between three operands. */
  lemma ThreeOperands(a: Token, p: Token, b: Token, q: Token, c: Token)
    requires IsOperand(a) && IsOperand(b) && IsOperand(c) && p in OPERATORS && q in OPERATORS
    ensures NoCommas(Rpn([OpenP, a, p, b, q, c, CloseP])) == if Before(p, q) then [a, b, c, q, p, End] else [a, b, p, c, q, End]
  {
    hide Rpn, NoCommas, ChainPost, Root;
    var es, ops := [Leaf(a), Leaf(b), Leaf(c)], [p, q];
    assert AllOps(ops) && IsChain(es, ops);
    CodeOfChain(es, ops);
    PostOfTwo(Leaf(a), Leaf(b), Leaf(c), p, q);
    WrittenOfTwo(a, p, b, q, c);
    assert [OpenP] + [a, p, b, q, c] + [CloseP] == [OpenP, a, p, b, q, c, CloseP];
  }

  lemma WrittenOfTwo(a: Token, p: Token, b: Token, q: Token, c: Token)
    ensures ChainWritten([Leaf(a), Leaf(b), Leaf(c)], [p, q]) == [a, p, b, q, c]
  {
    var es, ops := [Leaf(a), Leaf(b), Leaf(c)], [p, q];
    assert es[1..] == [Leaf(b), Leaf(c)] && ops[1..] == [q];
    assert [Leaf(b), Leaf(c)][1..] == [Leaf(c)] && [q][1..] == [];
    assert ChainWritten([Leaf(c)], []) == [c];
    assert ChainWritten([Leaf(b), Leaf(c)], [q]) == [b] + [q] + [c];
  }

  // ----- the compiler on its fixed-size stacks -----

  function Closes(ts: seq<Token>): nat {
    if ts == [] then 0 else Closes(ts[..|ts| - 1]) + if Top(ts).CloseP? then 1 else 0
  }

  function Size(st: State): nat { |st.out| + |st.ops| }

  lemma {:induction false} PopKeepsSize(st: State, level: nat)
    ensures Size(PopOps(st, level)) == Size(st)
    decreases |st.ops|
  {
    if st.ops != [] && !Stops(Top(st.ops), level) { PopKeepsSize(PopOne(st), level); }
  }

  lemma {:induction false} CloseKeepsSize(st: State)
    ensures Size(Close(st)) == if OpenP in st.ops then Size(st) - 1 else Size(st)
    decreases |st.ops|
  {
    if st.ops != [] && !Top(st.ops).OpenP? {
      CloseKeepsSize(PopOne(st));
      assert st.ops == PopOne(st).ops + [Top(st.ops)];
    }
  }

  /** No hidden capacity failure: Rpn-code and operators together never outgrow
      the tokens read, less one for each closing parenthesis. */
  lemma {:induction false} SizeBound(ts: seq<Token>)
    ensures Size(Run(State([], []), ts)) + Closes(ts) <= |ts|
  {
    if ts != [] {
      var st := Run(State([], []), ts[..|ts| - 1]);
      SizeBound(ts[..|ts| - 1]);
      PopKeepsSize(st, Level(Top(ts)));
      CloseKeepsSize(st);
    }
  }

  /** The two stacks as values. */
  function Stacks(rpn: array<Token>, nrpn: nat, opstack: array<Token>, nopstack: nat): State
    requires nrpn <= rpn.Length && nopstack <= opstack.Length
    reads rpn, opstack
  {
    State(rpn[..nrpn], opstack[..nopstack])
  }

  /** The loop that pops operators down to `level`. */
  method PopUntil(opstack: array<Token>, nopstack: nat, rpn: array<Token>, nrpn: nat, level: nat)
    returns (status: Status, nop: nat, nr: nat)
    requires opstack != rpn && opstack.Length == rpn.Length == MAX_EXPR_LEN
    requires nopstack < MAX_EXPR_LEN && nrpn < MAX_EXPR_LEN
    modifies opstack, rpn
    ensures status == Success ==>
      nr < MAX_EXPR_LEN && nop < MAX_EXPR_LEN &&
      Stacks(rpn, nr, opstack, nop) == PopOps(old(Stacks(rpn, nrpn, opstack, nopstack)), level)
    ensures status != Success ==> status == RpnStackOverflow && nopstack + nrpn >= MAX_EXPR_LEN
  {
    nop, nr := nopstack, nrpn;
    ghost var goal := PopOps(Stacks(rpn, nr, opstack, nop), level);
    while nop > 0
      invariant nop < MAX_EXPR_LEN && nr < MAX_EXPR_LEN && nop + nr == nopstack + nrpn
      invariant PopOps(Stacks(rpn, nr, opstack, nop), level) == goal
    {
      ghost var st := Stacks(rpn, nr, opstack, nop);
      nop := nop - 1;
      var entry := opstack[nop];
      if Stops(entry, level) {
        opstack[nop], nop := entry, nop + 1;
        assert Stacks(rpn, nr, opstack, nop) == st;
        return Success, nop, nr;
      }
      if nr >= MAX_EXPR_LEN - 1 { return RpnStackOverflow, nop, nr; }
      rpn[nr], nr := entry, nr + 1;
      assert Stacks(rpn, nr, opstack, nop) == PopOne(st);
    }
    status := Success;
  }

  /** The loop that pops operators until an open parenthesis and the function in front of it are gone. */
  method PopParens(opstack: array<Token>, nopstack: nat, rpn: array<Token>, nrpn: nat)
    returns (status: Status, nop: nat, nr: nat)
    requires opstack != rpn && rpn.Length == opstack.Length == MAX_EXPR_LEN
    requires nopstack < MAX_EXPR_LEN && nrpn < MAX_EXPR_LEN
    modifies rpn
    ensures status == Success ==>
      nr < MAX_EXPR_LEN && nop < MAX_EXPR_LEN &&
      Stacks(rpn, nr, opstack, nop) == Close(old(Stacks(rpn, nrpn, opstack, nopstack)))
    ensures status != Success ==> status == RpnStackOverflow && nopstack + nrpn >= MAX_EXPR_LEN
  {
    nop, nr := nopstack, nrpn;
    ghost var goal := Close(Stacks(rpn, nr, opstack, nop));
    while nop > 0
      invariant nop < MAX_EXPR_LEN && nr < MAX_EXPR_LEN && nop + nr == nopstack + nrpn
      invariant Close(Stacks(rpn, nr, opstack, nop)) == goal
    {
      ghost var st := Stacks(rpn, nr, opstack, nop);
      nop := nop - 1;
      var entry := opstack[nop];
      if entry.OpenP? {
        assert Stacks(rpn, nr, opstack, nop) == st.(ops := st.ops[..|st.ops| - 1]);
        if nop > 0 && opstack[nop - 1].Func? {
          st := Stacks(rpn, nr, opstack, nop);
          nop := nop - 1;
          if nr >= MAX_EXPR_LEN - 1 { return RpnStackOverflow, nop, nr; }
          rpn[nr], nr := opstack[nop], nr + 1;
          assert Stacks(rpn, nr, opstack, nop) == PopOne(st);
        }
        return Success, nop, nr;
      }
      if nr >= MAX_EXPR_LEN - 1 { return RpnStackOverflow, nop, nr; }
      rpn[nr], nr := entry, nr + 1;
      assert Stacks(rpn, nr, opstack, nop) == PopOne(st);
    }
    status := Success;
  }

  /** Reads one token. */
  method ReadToken(t: Token, opstack: array<Token>, nopstack: nat, rpn: array<Token>, nrpn: nat)
    returns (status: Status, nop: nat, nr: nat)
    requires opstack != rpn && rpn.Length == opstack.Length == MAX_EXPR_LEN
    requires nopstack < MAX_EXPR_LEN && nrpn < MAX_EXPR_LEN
    modifies opstack, rpn
    ensures status == Success ==>
      nr < MAX_EXPR_LEN && nop < MAX_EXPR_LEN &&
      Stacks(rpn, nr, opstack, nop) == Step(old(Stacks(rpn, nrpn, opstack, nopstack)), t)
    ensures status != Success ==> status in {OpStackOverflow, RpnStackOverflow} && nopstack + nrpn >= MAX_EXPR_LEN - 1
  {
    status, nop, nr := Success, nopstack, nrpn;
    ghost var st := Stacks(rpn, nr, opstack, nop);
    PopKeepsSize(st, Level(t));
    if t.Number? || t.Name? {
      if nr >= MAX_EXPR_LEN - 1 { return RpnStackOverflow, nop, nr; }
      rpn[nr], nr := t, nr + 1;
    } else if t.IsOp() || t.Comma? {
      status, nop, nr := PopUntil(opstack, nop, rpn, nr, Level(t));
      if status != Success { return; }
      if nop >= MAX_EXPR_LEN - 1 { return OpStackOverflow, nop, nr; }
      opstack[nop], nop := t, nop + 1;
    } else if t.OpenP? || t.Func? {
      if nop >= MAX_EXPR_LEN - 1 { return OpStackOverflow, nop, nr; }
      opstack[nop], nop := t, nop + 1;
    } else if t.CloseP? {
      status, nop, nr := PopParens(opstack, nop, rpn, nr);
    }
  }

  /** Adds everything left on the operator stack to the code. */
  method PopAll(opstack: array<Token>, nopstack: nat, rpn: array<Token>, nrpn: nat) returns (status: Status, nr: nat)
    requires opstack != rpn && rpn.Length == opstack.Length == MAX_EXPR_LEN
    requires nopstack < MAX_EXPR_LEN && nrpn < MAX_EXPR_LEN
    modifies rpn
    ensures status == Success ==>
      nr < MAX_EXPR_LEN && nr == nrpn + nopstack &&
      rpn[..nr] == Flush(old(Stacks(rpn, nrpn, opstack, nopstack))).out
    ensures status != Success ==> status == RpnStackOverflow && nopstack + nrpn >= MAX_EXPR_LEN
  {
    nr := nrpn;
    var nop: nat := nopstack;
    ghost var goal := Flush(Stacks(rpn, nr, opstack, nop)).out;
    while nop > 0
      invariant nop < MAX_EXPR_LEN && nr < MAX_EXPR_LEN && nr + nop == nrpn + nopstack
      invariant Flush(Stacks(rpn, nr, opstack, nop)).out == goal
    {
      ghost var st := Stacks(rpn, nr, opstack, nop);
      nop := nop - 1;
      if nr >= MAX_EXPR_LEN - 1 { return RpnStackOverflow, nr; }
      rpn[nr], nr := opstack[nop], nr + 1;
      assert Stacks(rpn, nr, opstack, nop) == PopOne(st);
    }
    status := Success;
  }

  /** Turns checked tokens into Rpn-code. */
  method Compile(token: seq<Token>) returns (status: Status, code: seq<Token>)
    ensures status == Success ==> code == Rpn(token)
    ensures status in {Success, OpStackOverflow, RpnStackOverflow}
    ensures |token| < 128 && CloseP in token ==> status == Success && |code| < 128
    ensures status == Success ==> OrderedAsChain(token, code)
  {
    hide Step, Closes, OrderedAsChain;
    var opstack, rpn := new Token[MAX_EXPR_LEN], new Token[MAX_EXPR_LEN];
    var nopstack: nat, nrpn: nat := 0, 0;
    code := [];
    var i := 0;
    while i < |token|
      invariant 0 <= i <= |token| && nopstack < MAX_EXPR_LEN && nrpn < MAX_EXPR_LEN
      invariant Stacks(rpn, nrpn, opstack, nopstack) == Run(State([], []), token[..i])
    {
      SizeBound(token[..i]);
      assert token[..i + 1][..i] == token[..i];
      status, nopstack, nrpn := ReadToken(token[i], opstack, nopstack, rpn, nrpn);
      if status != Success { return; }
      i := i + 1;
    }
    assert token[..i] == token;
    SizeBound(token);
    SomeClose(token);
    status, nrpn := PopAll(opstack, nopstack, rpn, nrpn);
    if status != Success { return; }
    if nrpn >= MAX_EXPR_LEN - 1 { return RpnStackOverflow, []; }
    rpn[nrpn], nrpn := End, nrpn + 1;
    status, code := Success, rpn[..nrpn];
    RpnIsOrdered(token);
  }

  lemma {:induction false} SomeClose(ts: seq<Token>)
    ensures CloseP in ts <==> Closes(ts) > 0
  {
    if ts != [] {
      SomeClose(ts[..|ts| - 1]);
      assert ts == ts[..|ts| - 1] + [Top(ts)];
    }
  }
}

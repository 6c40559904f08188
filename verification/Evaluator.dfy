/**
 The stack machine that runs Rpn-code, and what an expression is worth.
*/
module Evaluator {
  import opened Basics
  import Compiler
  import opened Functions
  import opened Grammar
  import opened Tokens

  datatype Parameter = Parameter(name: string, value: real)

  /** Everything an expression can refer to. */
  datatype Env = Env(lib: Library, parameters: seq<Parameter>)

  // ----- the machine -----

  /** The value of the first parameter with this name. */
  function Lookup(ps: seq<Parameter>, name: string): (r: Result<real>)
    ensures r.Err? <==> forall p :: p in ps ==> p.name != name
    ensures r.Err? ==> r.status == NameNotFound
  {
    if ps == [] then Err(NameNotFound)
    else if ps[0].name == name then Ok(ps[0].value)
    else Lookup(ps[1..], name)
  }

  /** Entries that replace values on the stack: operators and known functions. */
  predicate Combines(t: Token) { t.IsOp() || (t.Func? && t.text in FUNCTIONS) }

  function Operands(t: Token): nat { if t.IsOp() then 2 else if t.Func? then Arity(t.text) else 0 }

  function Combine(env: Env, t: Token, a: seq<real>): Result<real>
    requires Combines(t) && |a| == Operands(t)
  {
    if t.IsOp() then OpValue(env.lib, t, a[0], a[1]) else FuncValue(env.lib, t.text, a)
  }

  /** One entry of the code; a function nobody has heard of does nothing. */
  function EvalOne(env: Env, t: Token, stack: seq<real>): Result<seq<real>> {
    if t.Number? then Ok(stack + [env.lib.decimal(t.text)])
    else if t.Name? then
      match Lookup(env.parameters, t.text)
      case Ok(v) => Ok(stack + [v])
      case Err(s) => Err(s)
    else if Combines(t) then
      if |stack| < Operands(t) then Err(ValStackUnderflow)
      else
        var n := |stack| - Operands(t);
        match Combine(env, t, stack[n..])
        case Ok(v) => Ok(stack[..n] + [v])
        case Err(s) => Err(s)
    else Ok(stack)
  }

  function EvalCode(env: Env, code: seq<Token>, stack: seq<real>): Result<seq<real>>
    decreases code
  {
    if code == [] || code[0].End? then Ok(stack)
    else
      match EvalOne(env, code[0], stack)
      case Ok(s) => EvalCode(env, code[1..], s)
      case Err(s) => Err(s)
  }

  /** Status and value reported for what is left on the stack. */
  function Outcome(r: Result<seq<real>>): (Status, real) {
    match r
    case Err(s) => (s, 0.0)
    case Ok(stack) =>
      if stack == [] then (ValStackUnderflow, 0.0)
      else (if |stack| > 1 then ValStackOverflow else Success, stack[|stack| - 1])
  }

  // ----- the meaning of an expression -----

  function Count(es: Exprs): nat { if es.One? then 1 else 1 + Count(es.tail) }

  /** Every call has the right number of arguments, and parentheses hold a single expression otherwise. */
  predicate Applicable(e: Expr) {
    match e
    case Leaf(_) => true
    case Bin(_, l, r) => Applicable(l) && Applicable(r)
    case Group(es) => es.One? && Applicable(es.head)
    case Call(f, es) => f in FUNCTIONS && Count(es) == Arity(f) && ApplicableAll(es)
  }

  predicate ApplicableAll(es: Exprs) {
    Applicable(es.head) && (es.More? ==> ApplicableAll(es.tail))
  }

  lemma HeadIsShaped(es: Exprs)
    requires ShapedAll(es)
    ensures Shaped(es.head)
  {
  }

  /** The value of an expression, or the first error met from left to right. */
  function Value(env: Env, e: Expr): (r: Result<real>)
    requires Shaped(e) && Applicable(e)
    ensures r.Err? ==> r.status in {NameNotFound, FuncArgOutOfBounds}
  {
    match e
    case Leaf(t) => if t.Number? then Ok(env.lib.decimal(t.text)) else Lookup(env.parameters, t.text)
    case Bin(op, l, r) => (
      match Value(env, l)
      case Err(s) => Err(s)
      case Ok(a) =>
        match Value(env, r)
        case Err(s) => Err(s)
        case Ok(b) => OpValue(env.lib, op, a, b))
    case Group(es) =>
      HeadIsShaped(es);
      Value(env, es.head)
    case Call(f, es) => (
      match Values(env, es)
      case Err(s) => Err(s)
      case Ok(a) => FuncValue(env.lib, f, a))
  }

  function Values(env: Env, es: Exprs): (r: Result<seq<real>>)
    requires ShapedAll(es) && ApplicableAll(es)
    ensures r.Ok? ==> |r.value| == Count(es)
    ensures r.Err? ==> r.status in {NameNotFound, FuncArgOutOfBounds}
  {
    match Value(env, es.head)
    case Err(s) => Err(s)
    case Ok(v) =>
      if es.One? then Ok([v])
      else
        match Values(env, es.tail)
        case Err(s) => Err(s)
        case Ok(vs) => Ok([v] + vs)
  }

  // ----- the machine computes the meaning -----

  lemma EvalFirst(env: Env, t: Token, rest: seq<Token>, stack: seq<real>)
    requires t != End
    ensures EvalCode(env, [t] + rest, stack) ==
            var r := EvalOne(env, t, stack);
            if r.Ok? then EvalCode(env, rest, r.value) else r
  {
    assert ([t] + rest)[1..] == rest;
  }

  lemma NoCommasFirst(t: Token, rest: seq<Token>)
    ensures Compiler.NoCommas([t] + rest) == (if t.Comma? then [] else [t]) + Compiler.NoCommas(rest)
  {
    hide Compiler.NoCommas;
    Compiler.NoCommasConcat([t], rest);
    NoCommasOne(t);
  }

  lemma NoCommasOne(t: Token)
    ensures Compiler.NoCommas([t]) == if t.Comma? then [] else [t]
  {
    assert Compiler.NoCommas([]) == [];
    assert [t][..0] == [] && [t][1..] == [];
  }

  /** Commas in the code change nothing. */
  lemma {:induction false} CommasAreSkipped(env: Env, code: seq<Token>, stack: seq<real>)
    ensures EvalCode(env, code, stack) == EvalCode(env, Compiler.NoCommas(code), stack)
    decreases code
  {
    if code != [] {
      var t, rest := code[0], code[1..];
      assert code == [t] + rest;
      NoCommasFirst(t, rest);
      if !t.End? {
        EvalFirst(env, t, rest, stack);
        EvalFirst(env, t, Compiler.NoCommas(rest), stack);
        if t.Comma? {
          assert [] + Compiler.NoCommas(rest) == Compiler.NoCommas(rest);
        }
        var next := EvalOne(env, t, stack);
        if next.Ok? { CommasAreSkipped(env, rest, next.value); }
      }
    }
  }

  /** Running the code of an expression, whatever is on the stack and whatever code follows. */
  lemma {:induction false} EvalPost(env: Env, e: Expr, rest: seq<Token>, stack: seq<real>)
    requires Shaped(e) && Applicable(e)
    ensures EvalCode(env, Compiler.Post(e) + rest, stack) ==
            var r := Value(env, e);
            if r.Ok? then EvalCode(env, rest, stack + [r.value]) else Err(r.status)
    decreases e
  {
    match e
    case Leaf(t) => EvalFirst(env, t, rest, stack);
    case Bin(op, l, r) => EvalBin(env, e, rest, stack);
    case Group(es) => EvalPost(env, es.head, rest, stack);
    case Call(f, es) => EvalCall(env, e, rest, stack);
  }

  lemma {:induction false} EvalBin(env: Env, e: Expr, rest: seq<Token>, stack: seq<real>)
    requires e.Bin? && Shaped(e) && Applicable(e)
    ensures EvalCode(env, Compiler.Post(e) + rest, stack) ==
            var r := Value(env, e);
            if r.Ok? then EvalCode(env, rest, stack + [r.value]) else Err(r.status)
    decreases e, 0
  {
    hide EvalCode;
    var tail := Compiler.Post(e.right) + ([e.op] + rest);
    assert Compiler.Post(e) + rest == Compiler.Post(e.left) + tail;
    EvalPost(env, e.left, tail, stack);
    var a := Value(env, e.left);
    if a.Ok? {
      EvalPost(env, e.right, [e.op] + rest, stack + [a.value]);
      var b := Value(env, e.right);
      if b.Ok? {
        var full := stack + [a.value] + [b.value];
        EvalFirst(env, e.op, rest, full);
        assert full[|full| - 2..] == [a.value, b.value] && full[..|full| - 2] == stack;
      }
    }
  }

  lemma {:induction false} EvalCall(env: Env, e: Expr, rest: seq<Token>, stack: seq<real>)
    requires e.Call? && Shaped(e) && Applicable(e)
    ensures EvalCode(env, Compiler.Post(e) + rest, stack) ==
            var r := Value(env, e);
            if r.Ok? then EvalCode(env, rest, stack + [r.value]) else Err(r.status)
    decreases e, 0
  {
    hide EvalCode, FuncValue, Compiler.PostAll;
    assert Compiler.Post(e) + rest == Compiler.PostAll(e.args) + ([Func(e.name)] + rest);
    EvalPostAll(env, e.args, [Func(e.name)] + rest, stack);
    var vs := Values(env, e.args);
    if vs.Ok? {
      var full := stack + vs.value;
      EvalFirst(env, Func(e.name), rest, full);
      assert full[|full| - |vs.value|..] == vs.value && full[..|full| - |vs.value|] == stack;
    }
  }

  lemma {:induction false} EvalPostAll(env: Env, es: Exprs, rest: seq<Token>, stack: seq<real>)
    requires ShapedAll(es) && ApplicableAll(es)
    ensures EvalCode(env, Compiler.PostAll(es) + rest, stack) ==
            var r := Values(env, es);
            if r.Ok? then EvalCode(env, rest, stack + r.value) else Err(r.status)
    decreases es
  {
    if es.One? {
      EvalPost(env, es.head, rest, stack);
    } else {
      var tail := Compiler.PostAll(es.tail) + rest;
      assert Compiler.PostAll(es) + rest == Compiler.Post(es.head) + tail;
      EvalPost(env, es.head, tail, stack);
      var v := Value(env, es.head);
      if v.Ok? {
        EvalPostAll(env, es.tail, rest, stack + [v.value]);
        var vs := Values(env, es.tail);
        if vs.Ok? { assert stack + [v.value] + vs.value == stack + ([v.value] + vs.value); }
      }
    }
  }

  // ----- what comes out -----

  /** Code of `n` numbers and one entry that combines them. */
  predicate Combining(code: seq<Token>, n: nat, t: Token) {
    |code| == n + 2 && code[n] == t && code[n + 1] == End && forall k :: 0 <= k < n ==> code[k].Number?
  }

  /** The first `n` numbers of the code. */
  function Numbers(env: Env, code: seq<Token>, n: nat): seq<real>
    requires n <= |code| && forall k :: 0 <= k < n ==> code[k].Number?
  {
    seq(n, k requires 0 <= k < n => env.lib.decimal(code[k].text))
  }

  /** What is reported, as a result. */
  function AsResult(status: Status, val: real): Result<real> {
    if status == Success then Ok(val) else Err(status)
  }

  /** Every operator and every function gives what it should. */
  ghost predicate Lawful(env: Env, code: seq<Token>, r: Result<real>) {
    && (forall t :: t in {Plus, Minus, Times, Divide, Power} && Combining(code, 2, t) ==>
          OpMeans(env.lib, t, Numbers(env, code, 2)[0], Numbers(env, code, 2)[1], r))
    && (forall f, n: nat :: Calls(f, n) && Combining(code, n, Func(f)) ==> FuncMeans(env.lib, f, Numbers(env, code, n), r))
  }

  lemma {:induction false} NumbersArePushed(env: Env, code: seq<Token>, n: nat)
    requires n <= |code| && forall k :: 0 <= k < n ==> code[k].Number?
    ensures EvalCode(env, code, []) == EvalCode(env, code[n..], Numbers(env, code, n))
  {
    hide EvalCode, Combine;
    if n > 0 {
      NumbersArePushed(env, code, n - 1);
      EvalNext(env, code[n - 1..], Numbers(env, code, n - 1));
      assert code[n - 1..][1..] == code[n..] && code[n - 1..][0] == code[n - 1];
      assert Numbers(env, code, n - 1) + [env.lib.decimal(code[n - 1].text)] == Numbers(env, code, n);
    } else {
      assert code[0..] == code && Numbers(env, code, 0) == [];
    }
  }

  /** The numbers are combined, and what comes out is reported. */
  lemma CombiningGives(env: Env, code: seq<Token>, n: nat, t: Token)
    requires Combining(code, n, t) && t != End && Combines(t) && Operands(t) == n
    ensures var r := Combine(env, t, Numbers(env, code, n));
            Outcome(EvalCode(env, code, [])) == if r.Ok? then (Success, r.value) else (r.status, 0.0)
  {
    hide EvalCode, Combine, Combines, Operands;
    var a := Numbers(env, code, n);
    NumbersArePushed(env, code, n);
    assert code[n..][0] == t && code[n..][1..] == [End];
    EvalNext(env, code[n..], a);
    EvalCombines(env, t, a);
    assert a[0..] == a && a[..0] == [];
    var r := Combine(env, t, a);
    if r.Ok? {
      EvalEnds(env, [End], [] + [r.value]);
    }
  }

  lemma CodeIsLawful(env: Env, code: seq<Token>)
    ensures var o := Outcome(EvalCode(env, code, [])); Lawful(env, code, AsResult(o.0, o.1))
  {
    hide EvalCode, OpMeans, FuncMeans, OpValue, FuncValue, Calls, Outcome, Arity, FUNCTIONS;
    var o := Outcome(EvalCode(env, code, []));
    forall t | t in {Plus, Minus, Times, Divide, Power} && Combining(code, 2, t)
      ensures OpMeans(env.lib, t, Numbers(env, code, 2)[0], Numbers(env, code, 2)[1], AsResult(o.0, o.1))
    {
      var a := Numbers(env, code, 2);
      OpMeansOne(env.lib, t, a[0], a[1], OpValue(env.lib, t, a[0], a[1]));
      CombiningGives(env, code, 2, t);
      CombineFails(env, t, a);
    }
    forall f, n: nat | Calls(f, n) && Combining(code, n, Func(f))
      ensures FuncMeans(env.lib, f, Numbers(env, code, n), AsResult(o.0, o.1))
    {
      var a := Numbers(env, code, n);
      CallMeans(env.lib, f, a);
      CombiningGives(env, code, n, Func(f));
      CombineFails(env, Func(f), a);
    }
  }

  // ----- the machine on its fixed-size stack -----

  /** Finds a parameter by its name. */
  method FindParameter(ps: seq<Parameter>, name: string) returns (r: Result<real>)
    ensures r == Lookup(ps, name)
  {
    var ipmtr := 0;
    while ipmtr < |ps|
      invariant 0 <= ipmtr <= |ps|
      invariant Lookup(ps, name) == Lookup(ps[ipmtr..], name)
    {
      if ps[ipmtr].name == name { return Ok(ps[ipmtr].value); }
      assert ps[ipmtr..][1..] == ps[ipmtr + 1..];
      ipmtr := ipmtr + 1;
    }
    r := Err(NameNotFound);
  }

  /** Operators and functions take at least one value, and leave one. */
  lemma TakesSome(t: Token)
    requires Combines(t)
    ensures Operands(t) >= 1
  {
    hide FUNCTIONS;
  }

  lemma EvalCombines(env: Env, t: Token, stack: seq<real>)
    requires Combines(t) && |stack| >= Operands(t)
    ensures var k := |stack| - Operands(t);
            EvalOne(env, t, stack) ==
            match Combine(env, t, stack[k..]) case Ok(v) => Ok(stack[..k] + [v]) case Err(s) => Err(s)
  {
    hide Combine, Operands;
  }

  lemma CombineFails(env: Env, t: Token, a: seq<real>)
    requires Combines(t) && |a| == Operands(t)
    ensures var r := Combine(env, t, a); r.Err? ==> r.status == FuncArgOutOfBounds
  {
  }

  /** One entry of the code, on the stack `valstack[..nvalstack]`. */
  method EvalStep(env: Env, t: Token, valstack: array<real>, nvalstack: nat) returns (status: Status, n: nat)
    requires valstack.Length == MAX_EXPR_LEN && nvalstack < MAX_EXPR_LEN
    modifies valstack
    ensures status == Success ==> n < MAX_EXPR_LEN && n <= nvalstack + 1
    ensures nvalstack < MAX_EXPR_LEN - 1 ==>
      EvalOne(env, t, old(valstack[..nvalstack])) == if status == Success then Ok(valstack[..n]) else Err(status)
  {
    hide Combine, Lookup, Operands;
    n := nvalstack;
    status := Success;
    ghost var stack := valstack[..n];
    if t.Number? || t.Name? {
      var r: Result<real> := Ok(0.0);
      if t.Number? { r := Ok(env.lib.decimal(t.text)); } else { r := FindParameter(env.parameters, t.text); }
      if r.Err? { return r.status, n; }
      if n >= MAX_EXPR_LEN - 1 { return ValStackOverflow, n; }
      valstack[n], n := r.value, n + 1;
      assert valstack[..n] == stack + [r.value];
    } else if Combines(t) {
      TakesSome(t);
      if n < Operands(t) { return ValStackUnderflow, n; }
      n := n - Operands(t);
      assert valstack[n..nvalstack] == stack[|stack| - Operands(t)..];
      var r := Combine(env, t, valstack[n..nvalstack]);
      EvalCombines(env, t, stack);
      CombineFails(env, t, stack[|stack| - Operands(t)..]);
      if r.Err? { return r.status, n; }
      valstack[n], n := r.value, n + 1;
      assert valstack[..n] == stack[..n - 1] + [r.value];
    }
  }

  lemma EvalNext(env: Env, code: seq<Token>, stack: seq<real>)
    requires code != [] && !code[0].End?
    ensures EvalCode(env, code, stack) ==
            match EvalOne(env, code[0], stack) case Ok(s) => EvalCode(env, code[1..], s) case Err(s) => Err(s)
  {
    hide EvalOne;
  }

  lemma EvalEnds(env: Env, code: seq<Token>, stack: seq<real>)
    requires code != [] && code[0].End?
    ensures EvalCode(env, code, stack) == Ok(stack)
  {
  }

  /** Runs the code and reports the one value it leaves. */
  method EvalRpn(env: Env, rpn: seq<Token>) returns (status: Status, val: real)
    requires End in rpn
    ensures |rpn| < 128 ==> (status, val) == Outcome(EvalCode(env, rpn, []))
    ensures |rpn| < 128 ==> Lawful(env, rpn, AsResult(status, val))
  {
    hide EvalCode, EvalOne, Lawful;
    CodeIsLawful(env, rpn);
    var valstack := new real[MAX_EXPR_LEN];
    var nvalstack: nat := 0;
    val := 0.0;
    var irpn := 0;
    ghost var goal := EvalCode(env, rpn, []);
    assert rpn[0..] == rpn;
    while !rpn[irpn].End?
      invariant 0 <= irpn < |rpn| && End in rpn[irpn..]
      invariant nvalstack < MAX_EXPR_LEN && nvalstack <= irpn
      invariant |rpn| < MAX_EXPR_LEN ==> EvalCode(env, rpn[irpn..], valstack[..nvalstack]) == goal
      decreases |rpn| - irpn
    {
      assert rpn[irpn..][1..] == rpn[irpn + 1..];
      EvalNext(env, rpn[irpn..], valstack[..nvalstack]);
      status, nvalstack := EvalStep(env, rpn[irpn], valstack, nvalstack);
      if status != Success { return; }
      irpn := irpn + 1;
    }
    EvalEnds(env, rpn[irpn..], valstack[..nvalstack]);
    if nvalstack == 0 { return ValStackUnderflow, 0.0; }
    nvalstack := nvalstack - 1;
    val := valstack[nvalstack];
    status := if nvalstack > 0 then ValStackOverflow else Success;
  }
}

/**
 From lexemes to a value: the compiler and the evaluator together, and the
 theorem that together they compute the value of the expression written.
*/
module Expressions {
  import opened Basics
  import opened Chains
  import Compiler
  import opened Evaluator
  import opened Functions
  import opened Grammar
  import opened Tokens
  import Unambiguous

  /** The token list that a lexeme list stands for. */
  function TokensOf(raw: seq<Token>): seq<Token> { Expand(raw) + [CloseP] }

  function Parenthesised(es: Exprs): seq<Token> { [OpenP] + WrittenAll(es) + [CloseP] }

  /** What the first half of the compiler lets through. */
  predicate Accepts(raw: seq<Token>) {
    && |TokensOf(raw)| < 128
    && Balanced(TokensOf(raw)) && Sequenced(TokensOf(raw))
    && forall t :: t in TokensOf(raw) ==> WellSpelled(t)
  }

  /** Status and value reported for an expression. */
  function Reported(r: Result<real>): (Status, real) {
    match r
    case Ok(v) => (Success, v)
    case Err(s) => (s, 0.0)
  }

  // ----- unary signs -----

  lemma ExpandLast(before: seq<Token>, t: Token)
    ensures Expand(before + [t]) == (if NeedsZero(Expand(before), t) then Expand(before) + [ZERO] else Expand(before)) + [t]
  {
    assert (before + [t])[..|before|] == before;
  }

  predicate NothingOnLeft(p: seq<Token>) { p == [] || p[|p| - 1].OpenP? || p[|p| - 1].Comma? }

  lemma LastExpanded(p: seq<Token>)
    ensures var ts := Expand(p); ts[|ts| - 1] == if p == [] then OpenP else p[|p| - 1]
  {
  }

  lemma SignNeedsZero(p: seq<Token>, sign: Token)
    requires sign.IsOp1() && NothingOnLeft(p)
    ensures Expand(p + [sign]) == Expand(p + [ZERO] + [sign])
  {
    var ts := Expand(p);
    LastExpanded(p);
    assert Expand(p + [sign]) == ts + [ZERO] + [sign] by { ExpandLast(p, sign); }
    assert Expand(p + [ZERO]) == ts + [ZERO] by { ExpandLast(p, ZERO); }
    ExpandLast(p + [ZERO], sign);
  }

  /** A sign with nothing on its left means the same as that sign after a zero. */
  lemma {:induction false} UnaryIsBinary(p: seq<Token>, sign: Token, rest: seq<Token>)
    requires sign.IsOp1() && NothingOnLeft(p)
    ensures Expand(p + [sign] + rest) == Expand(p + [Number("0")] + [sign] + rest)
    decreases rest
  {
    hide Expand, NeedsZero, NothingOnLeft;
    var unary, binary := p + [sign], p + [ZERO] + [sign];
    if rest == [] {
      SignNeedsZero(p, sign);
      assert unary + rest == unary && binary + rest == binary;
    } else {
      var init, t := rest[..|rest| - 1], rest[|rest| - 1];
      UnaryIsBinary(p, sign, init);
      ExpandLast(unary + init, t);
      ExpandLast(binary + init, t);
      assert unary + rest == unary + init + [t] && binary + rest == binary + init + [t];
    }
  }

  /** An expression written out in full gets no zeros. */
  lemma {:induction false} FullFormIsKept(raw: seq<Token>)
    requires Sequenced([OpenP] + raw)
    ensures Expand(raw) == [OpenP] + raw
  {
    if raw != [] {
      var init, t := raw[..|raw| - 1], raw[|raw| - 1];
      var ts := [OpenP] + raw;
      assert ts[..|raw|] == [OpenP] + init;
      FullFormIsKept(init);
      assert Follows(ts[|raw| - 1], ts[|raw|]);
    }
  }

  lemma WrittenStandsForItself(es: Exprs)
    requires ShapedAll(es)
    ensures TokensOf(WrittenAll(es)) == Parenthesised(es)
  {
    WrittenIsAccepted(es);
    var ts := Parenthesised(es);
    assert ts[..|ts| - 1] == [OpenP] + WrittenAll(es);
    forall i | 0 <= i < |ts| - 2 ensures Follows(([OpenP] + WrittenAll(es))[i], ([OpenP] + WrittenAll(es))[i + 1]) {
      assert Follows(ts[i], ts[i + 1]);
    }
    FullFormIsKept(WrittenAll(es));
  }

  /** A lexeme list stands for one tree at most. */
  lemma TreeIsUnique(raw: seq<Token>, es: Exprs, es': Exprs)
    requires ShapedAll(es) && ShapedAll(es') && TokensOf(raw) == Parenthesised(es) == Parenthesised(es')
    ensures es == es'
  {
    hide TokensOf, WrittenAll;
    Unambiguous.InnerAgrees(WrittenAll(es), WrittenAll(es'));
    Unambiguous.WrittenAllIsInjective(es, es');
  }

  // ----- lists without commas and calls -----

  predicate Simple(ts: seq<Token>) { forall t :: t in ts ==> !t.Comma? && !t.Func? }

  lemma CallIsNotSimple(e: Expr)
    requires e.Call?
    ensures !Simple(Written(e))
  {
    assert Func(e.name) in Written(e);
  }

  lemma MoreIsNotSimple(es: Exprs)
    requires es.More?
    ensures !Simple(WrittenAll(es))
  {
    assert Comma in WrittenAll(es);
  }

  lemma {:induction false} SimpleIsApplicable(e: Expr)
    requires Shaped(e) && Simple(Written(e))
    ensures Applicable(e)
  {
    match e
    case Leaf(_) =>
    case Bin(_, l, r) =>
      SimpleIsApplicable(l);
      SimpleIsApplicable(r);
    case Group(es) => SimpleIsSingle(es);
    case Call(_, _) => CallIsNotSimple(e);
  }

  lemma {:induction false} SimpleIsSingle(es: Exprs)
    requires ShapedAll(es) && Simple(WrittenAll(es))
    ensures es.One? && Applicable(es.head)
  {
    if es.More? {
      MoreIsNotSimple(es);
    } else {
      SimpleIsApplicable(es.head);
    }
  }

  // ----- the theorem -----

  /** Compiling and running a written expression reports its value. */
  lemma {:induction false} RunsToValue(env: Env, es: Exprs)
    requires ShapedAll(es) && es.One? && Applicable(es.head)
    ensures Outcome(EvalCode(env, Compiler.Rpn(Parenthesised(es)), [])) == Reported(Value(env, es.head))
  {
    var code := Compiler.Rpn(Parenthesised(es));
    Compiler.CodeIsPostorder(es);
    CommasAreSkipped(env, code, []);
    EvalPost(env, es.head, [End], []);
    var r := Value(env, es.head);
    if r.Ok? { assert [] + [r.value] == [r.value]; }
  }

  /** Every accepted list without commas and calls is one expression and no other, and its
      value is reported. */
  lemma {:induction false} SimpleListHasValue(env: Env, raw: seq<Token>) returns (e: Expr)
    requires Accepts(raw) && End !in raw && Simple(raw)
    ensures Shaped(e) && Applicable(e) && TokensOf(raw) == Parenthesised(One(e))
    ensures forall es :: ShapedAll(es) && TokensOf(raw) == Parenthesised(es) ==> es == One(e)
    ensures Outcome(EvalCode(env, Compiler.Rpn(TokensOf(raw)), [])) == Reported(Value(env, e))
  {
    var ts := TokensOf(raw);
    ExpandKeeps(raw);
    var es := Parse(ts);
    assert forall t :: t in WrittenAll(es) ==> t in ts;
    SimpleIsSingle(es);
    e := es.head;
    RunsToValue(env, es);
    forall es' | ShapedAll(es') && ts == Parenthesised(es') ensures es' == One(e) {
      TreeIsUnique(raw, es, es');
    }
  }

  /** Expansion adds an opening parenthesis and zeros, and nothing else. */
  lemma {:induction false} ExpandKeeps(raw: seq<Token>)
    ensures Expand(raw)[0] == OpenP
    ensures forall t :: t in Expand(raw) ==> t in raw || t == OpenP || t == ZERO
  {
    if raw != [] {
      ExpandKeeps(raw[..|raw| - 1]);
      assert raw == raw[..|raw| - 1] + [raw[|raw| - 1]];
    }
  }

  // ----- chains -----

  predicate AllApplicable(es: seq<Expr>) { forall k :: 0 <= k < |es| ==> Applicable(es[k]) }

  /** The value of a chain: that of what is left of its root, combined by the root with that
      of what is right of it. */
  function ChainValue(env: Env, es: seq<Expr>, ops: seq<Token>): Result<real>
    requires IsChain(es, ops) && AllApplicable(es)
    decreases |ops|
  {
    if ops == [] then Value(env, es[0])
    else
      var r := Root(ops);
      var left, right := ChainValue(env, es[..r + 1], ops[..r]), ChainValue(env, es[r + 1..], ops[r + 1..]);
      if left.Err? then left else if right.Err? then right
      else OpValue(env.lib, ops[r], left.value, right.value)
  }

  lemma BinHasValue(env: Env, op: Token, l: Expr, r: Expr)
    requires Shaped(Bin(op, l, r)) && Applicable(l) && Applicable(r)
    ensures Shaped(l) && Shaped(r) && Applicable(Bin(op, l, r)) && op.IsOp()
    ensures var a, b := Value(env, l), Value(env, r);
            Value(env, Bin(op, l, r)) ==
            if a.Err? then a else if b.Err? then b else OpValue(env.lib, op, a.value, b.value)
  {
    hide OpValue;
  }

  lemma {:induction false} ChainHasValue(env: Env, es: seq<Expr>, ops: seq<Token>)
    requires IsChain(es, ops) && AllApplicable(es)
    ensures var e := ChainTree(es, ops); Shaped(e) && Applicable(e) && Value(env, e) == ChainValue(env, es, ops)
    decreases |ops|
  {
    hide Root, OpValue, Value, Shaped, Applicable, Written, ChainWritten;
    ChainIsShaped(es, ops);
    if ops != [] {
      var r := Root(ops);
      PartsAreChains(es, ops, r);
      assert AllApplicable(es[..r + 1]) && AllApplicable(es[r + 1..]);
      ChainHasValue(env, es[..r + 1], ops[..r]);
      ChainHasValue(env, es[r + 1..], ops[r + 1..]);
      BinHasValue(env, ops[r], ChainTree(es[..r + 1], ops[..r]), ChainTree(es[r + 1..], ops[r + 1..]));
    }
  }

  /** If the list is a chain, its value is reported. */
  ghost predicate ReportsChains(env: Env, raw: seq<Token>, status: Status, val: real) {
    forall es, ops :: IsChain(es, ops) && AllApplicable(es) && TokensOf(raw) == [OpenP] + ChainWritten(es, ops) + [CloseP] ==>
      (status, val) == Reported(ChainValue(env, es, ops))
  }

  lemma ChainsAreReported(env: Env, raw: seq<Token>)
    ensures var o := Outcome(EvalCode(env, Compiler.Rpn(TokensOf(raw)), [])); ReportsChains(env, raw, o.0, o.1)
  {
    hide TokensOf, Compiler.Rpn, EvalCode, Outcome, Value, ChainValue, ChainTree, ChainWritten, AllApplicable;
    var o := Outcome(EvalCode(env, Compiler.Rpn(TokensOf(raw)), []));
    forall es, ops | IsChain(es, ops) && AllApplicable(es) && TokensOf(raw) == [OpenP] + ChainWritten(es, ops) + [CloseP]
      ensures o == Reported(ChainValue(env, es, ops))
    {
      ChainIsShaped(es, ops);
      ChainHasValue(env, es, ops);
      RunsToValue(env, One(ChainTree(es, ops)));
    }
  }

  // ----- the program -----

  /** What can be wrong with a list of tokens. A full stack is not among it. */
  const TOKEN_ERRORS: set<Status> := {
    TokenStackOverflow, CloseBeforeOpen, MissingClose, IllegalTokenSequence, IllegalFuncName, IllegalNumber
  }

  /** Compiles an expression. */
  method Str2Rpn(raw: seq<Token>) returns (status: Status, rpn: seq<Token>)
    ensures status == Success <==> Accepts(raw)
    ensures status == Success ==> rpn == Compiler.Rpn(TokensOf(raw)) && |rpn| < 128
    ensures status in TOKEN_ERRORS + {Success}
  {
    rpn := [];
    var token;
    status, token := Tokenize(raw);
    if status != Success { return; }
    status := CheckTokens(token);
    if status != Success { return; }
    assert token[|token| - 1] == CloseP;
    status, rpn := Compiler.Compile(token);
  }

  /** Compiles and evaluates an expression. */
  method Str2Val(raw: seq<Token>, env: Env) returns (status: Status, val: real)
    requires End !in raw
    ensures !Accepts(raw) ==> status in TOKEN_ERRORS
    ensures Accepts(raw) ==> (status, val) == Outcome(EvalCode(env, Compiler.Rpn(TokensOf(raw)), []))
    ensures Accepts(raw) ==> forall e :: Shaped(e) && Applicable(e) && TokensOf(raw) == Parenthesised(One(e)) ==>
      (status, val) == Reported(Value(env, e))
    ensures Accepts(raw) && Simple(raw) ==>
      exists e :: Shaped(e) && Applicable(e) && TokensOf(raw) == Parenthesised(One(e)) && (status, val) == Reported(Value(env, e))
    ensures Accepts(raw) ==> ReportsChains(env, raw, status, val)
  {
    hide ReportsChains, EvalCode, Value, Lawful;
    ChainsAreReported(env, raw);
    val := 0.0;
    var rpn;
    status, rpn := Str2Rpn(raw);
    if status != Success { return; }
    assert End in rpn by { assert rpn[|rpn| - 1] == End; }
    status, val := EvalRpn(env, rpn);
    forall e | Shaped(e) && Applicable(e) && TokensOf(raw) == Parenthesised(One(e))
      ensures (status, val) == Reported(Value(env, e))
    {
      RunsToValue(env, One(e));
    }
    if Simple(raw) {
      var e := SimpleListHasValue(env, raw);
    }
  }
}

/** Operands with operators between them, and what precedence makes of them: told operator
    by operator, without levels. */
module Chains {
  import opened Grammar
  import opened Tokens

  /** The place of the last of the operators `ts`, or -1. */
  function LastOf(ops: seq<Token>, ts: set<Token>): (r: int)
    ensures -1 <= r < |ops|
    ensures forall k :: r < k < |ops| ==> ops[k] !in ts
    ensures r >= 0 ==> ops[r] in ts
  {
    if ops == [] || ops[|ops| - 1] in ts then |ops| - 1 else LastOf(ops[..|ops| - 1], ts)
  }

  const OPERATORS: set<Token> := {Plus, Minus, Times, Divide, Power}

  predicate AllOps(ops: seq<Token>) { forall k :: 0 <= k < |ops| ==> ops[k] in OPERATORS }

  /** The operator that is applied last: the last plus or minus; if there is none, the last
      times or divide; if there is none either, the last power. */
  function Root(ops: seq<Token>): (r: nat)
    requires ops != [] && AllOps(ops)
    ensures r < |ops|
  {
    if LastOf(ops, {Plus, Minus}) >= 0 then LastOf(ops, {Plus, Minus})
    else if LastOf(ops, {Times, Divide}) >= 0 then LastOf(ops, {Times, Divide})
    else |ops| - 1
  }

  /** Operands that are no operations themselves, with the operators between them. */
  predicate IsChain(es: seq<Expr>, ops: seq<Token>) {
    && |es| == |ops| + 1 && AllOps(ops)
    && forall k :: 0 <= k < |es| ==> Shaped(es[k]) && !es[k].Bin?
  }

  lemma PartsAreChains(es: seq<Expr>, ops: seq<Token>, r: nat)
    requires IsChain(es, ops) && r < |ops|
    ensures IsChain(es[..r + 1], ops[..r]) && IsChain(es[r + 1..], ops[r + 1..])
  {
    hide Shaped;
  }

  /** What a chain is written as. */
  function ChainWritten(es: seq<Expr>, ops: seq<Token>): seq<Token>
    requires |es| == |ops| + 1
    decreases |ops|
  {
    if ops == [] then Written(es[0]) else Written(es[0]) + [ops[0]] + ChainWritten(es[1..], ops[1..])
  }

  /** How a chain is grouped. */
  function ChainTree(es: seq<Expr>, ops: seq<Token>): Expr
    requires |es| == |ops| + 1 && AllOps(ops)
    decreases |ops|
  {
    if ops == [] then es[0]
    else
      var r := Root(ops);
      Bin(ops[r], ChainTree(es[..r + 1], ops[..r]), ChainTree(es[r + 1..], ops[r + 1..]))
  }

  lemma {:induction false} WrittenSplits(es: seq<Expr>, ops: seq<Token>, r: nat)
    requires |es| == |ops| + 1 && r < |ops|
    ensures ChainWritten(es, ops) ==
            ChainWritten(es[..r + 1], ops[..r]) + [ops[r]] + ChainWritten(es[r + 1..], ops[r + 1..])
    decreases r
  {
    hide Written;
    if r > 0 {
      WrittenSplits(es[1..], ops[1..], r - 1);
      assert es[1..][..r] == es[..r + 1][1..] && ops[1..][..r - 1] == ops[..r][1..];
      assert es[1..][r..] == es[r + 1..] && ops[1..][r..] == ops[r + 1..];
    } else {
      assert ops[..0] == [];
    }
  }

  /** On the right of the root there are only operators that bind more tightly, and on its
      left none that binds less tightly. */
  lemma RootIsLoosest(ops: seq<Token>)
    requires ops != [] && AllOps(ops)
    ensures var r := Root(ops);
            && (forall k :: r < k < |ops| ==> ops[k].Prec() > ops[r].Prec())
            && (forall k :: 0 <= k < r ==> ops[k].Prec() >= ops[r].Prec())
  {
    hide LastOf;
  }

  lemma {:induction false} ChainIsShaped(es: seq<Expr>, ops: seq<Token>)
    requires IsChain(es, ops)
    ensures var e := ChainTree(es, ops);
            Shaped(e) && Written(e) == ChainWritten(es, ops) && if ops == [] then Prec(e) == 4 else Prec(e) == ops[Root(ops)].Prec()
    decreases |ops|
  {
    hide Root;
    if ops != [] {
      var r := Root(ops);
      RootIsLoosest(ops);
      PartsAreChains(es, ops, r);
      ChainIsShaped(es[..r + 1], ops[..r]);
      ChainIsShaped(es[r + 1..], ops[r + 1..]);
      WrittenSplits(es, ops, r);
    }
  }
}

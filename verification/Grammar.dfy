/**
 The expression language as trees, and the proof that the two token tests
 (balance of parentheses and proper sequencing) accept exactly the token lists
 that some tree is written as.
*/
module Grammar {
  import opened Tokens

  /** An expression as written: operators, parenthesised lists and calls. */
  datatype Expr =
    | Leaf(tok: Token)
    | Bin(op: Token, left: Expr, right: Expr)
    | Group(items: Exprs)
    | Call(name: string, args: Exprs)

  /** One or more expressions between commas. */
  datatype Exprs = One(head: Expr) | More(head: Expr, tail: Exprs)

  function Prec(e: Expr): nat { if e.Bin? then e.op.Prec() else 4 }

  /** The tree is the one that precedence and left associativity give. */
  predicate Shaped(e: Expr) {
    match e
    case Leaf(t) => t.Number? || t.Name?
    case Bin(op, l, r) => op.IsOp() && Shaped(l) && Shaped(r) && Prec(l) >= op.Prec() && Prec(r) > op.Prec()
    case Group(es) => ShapedAll(es)
    case Call(_, es) => ShapedAll(es)
  }

  predicate ShapedAll(es: Exprs) {
    Shaped(es.head) && (es.More? ==> ShapedAll(es.tail))
  }

  /** The tokens an expression is written with. */
  function Written(e: Expr): (ts: seq<Token>)
    ensures |ts| > 0
  {
    match e
    case Leaf(t) => [t]
    case Bin(op, l, r) => Written(l) + [op] + Written(r)
    case Group(es) => [OpenP] + WrittenAll(es) + [CloseP]
    case Call(f, es) => [Func(f), OpenP] + WrittenAll(es) + [CloseP]
  }

  function WrittenAll(es: Exprs): (ts: seq<Token>)
    ensures |ts| > 0
  {
    match es
    case One(e) => Written(e)
    case More(e, rest) => Written(e) + [Comma] + WrittenAll(rest)
  }

  // ----- every written tree passes both tests -----

  /** May end an operand. */
  predicate EndsOperand(t: Token) { t.Number? || t.Name? || t.CloseP? }

  /** A correctly sequenced stretch of tokens that begins and ends like an operand. */
  predicate Operand(ts: seq<Token>) {
    |ts| > 0 && ts[0].BeginsOperand() && EndsOperand(ts[|ts| - 1]) && Sequenced(ts)
  }

  lemma JoinOperands(a: seq<Token>, t: Token, b: seq<Token>)
    requires Operand(a) && Operand(b) && (t.IsOp() || t.Comma?)
    ensures Operand(a + [t] + b)
  {
  }

  lemma {:induction false} WrittenIsOperand(e: Expr)
    requires Shaped(e)
    ensures Operand(Written(e))
  {
    match e
    case Leaf(_) =>
    case Bin(op, l, r) =>
      WrittenIsOperand(l);
      WrittenIsOperand(r);
      JoinOperands(Written(l), op, Written(r));
    case Group(es) => WrittenAllIsOperand(es);
    case Call(_, es) => WrittenAllIsOperand(es);
  }

  lemma {:induction false} WrittenAllIsOperand(es: Exprs)
    requires ShapedAll(es)
    ensures Operand(WrittenAll(es))
  {
    WrittenIsOperand(es.head);
    if es.More? {
      WrittenAllIsOperand(es.tail);
      JoinOperands(Written(es.head), Comma, WrittenAll(es.tail));
    }
  }

  /** Reading `ts` behind `p` keeps a parenthesis open all the way and leaves the count as it was. */
  predicate Keeps(p: seq<Token>, ts: seq<Token>) {
    Opened(p) && Depth(p) >= 1 ==> Opened(p + ts) && Depth(p + ts) == Depth(p)
  }

  lemma KeepsSingle(p: seq<Token>, t: Token)
    requires Nesting(t) == 0
    ensures Keeps(p, [t])
  {
    AppendToken(p, t);
  }

  lemma KeepsJoin(p: seq<Token>, a: seq<Token>, b: seq<Token>)
    requires Keeps(p, a) && Keeps(p + a, b)
    ensures Keeps(p, a + b)
  {
    assert p + (a + b) == (p + a) + b;
  }

  lemma KeepsWrap(p: seq<Token>, ts: seq<Token>)
    requires Keeps(p + [OpenP], ts)
    ensures Keeps(p, [OpenP] + ts + [CloseP])
  {
    AppendToken(p, OpenP);
    AppendToken(p + [OpenP] + ts, CloseP);
    assert p + ([OpenP] + ts + [CloseP]) == p + [OpenP] + ts + [CloseP];
  }

  lemma {:induction false} WrittenKeeps(p: seq<Token>, e: Expr)
    requires Shaped(e)
    ensures Keeps(p, Written(e))
    decreases e
  {
    match e
    case Leaf(t) => KeepsSingle(p, t);
    case Bin(op, l, r) =>
      WrittenKeeps(p, l);
      KeepsSingle(p + Written(l), op);
      KeepsJoin(p, Written(l), [op]);
      WrittenKeeps(p + (Written(l) + [op]), r);
      KeepsJoin(p, Written(l) + [op], Written(r));
    case Group(es) =>
      WrittenAllKeeps(p + [OpenP], es);
      KeepsWrap(p, WrittenAll(es));
    case Call(f, es) =>
      KeepsSingle(p, Func(f));
      WrittenAllKeeps(p + [Func(f)] + [OpenP], es);
      KeepsWrap(p + [Func(f)], WrittenAll(es));
      KeepsJoin(p, [Func(f)], [OpenP] + WrittenAll(es) + [CloseP]);
      assert [Func(f)] + ([OpenP] + WrittenAll(es) + [CloseP]) == Written(e);
  }

  lemma {:induction false} WrittenAllKeeps(p: seq<Token>, es: Exprs)
    requires ShapedAll(es)
    ensures Keeps(p, WrittenAll(es))
    decreases es
  {
    WrittenKeeps(p, es.head);
    if es.More? {
      KeepsSingle(p + Written(es.head), Comma);
      KeepsJoin(p, Written(es.head), [Comma]);
      WrittenAllKeeps(p + (Written(es.head) + [Comma]), es.tail);
      KeepsJoin(p, Written(es.head) + [Comma], WrittenAll(es.tail));
    }
  }

  // ----- every list that passes both tests is a written tree -----

  /** Position `i` of an accepted list where an operand has to begin. */
  ghost predicate AtOperand(ts: seq<Token>, i: int) {
    0 < i < |ts| && ts[i].BeginsOperand()
  }

  ghost predicate Accepted(ts: seq<Token>) {
    Balanced(ts) && Sequenced(ts) && (forall t :: t in ts ==> t != End)
  }

  lemma {:induction false} OpenInside(ts: seq<Token>, k: nat)
    requires Opened(ts) && 0 < k <= |ts|
    ensures Depth(ts[..k]) >= 1
  {
    if k < |ts| {
      OpenInside(ts[..|ts| - 1], k);
      assert ts[..|ts| - 1][..k] == ts[..k];
    } else {
      assert ts[..k] == ts;
    }
  }

  lemma DepthAt(ts: seq<Token>, k: nat)
    requires Accepted(ts) && k < |ts|
    ensures Depth(ts[..k + 1]) == Depth(ts[..k]) + Nesting(ts[k])
    ensures Depth(ts[..k + 1]) >= 1 <==> k + 1 < |ts|
  {
    assert ts[..k + 1] == ts[..k] + [ts[k]];
    AppendToken(ts[..k], ts[k]);
    if k + 1 < |ts| {
      OpenInside(ts[..|ts| - 1], k + 1);
      assert ts[..|ts| - 1][..k + 1] == ts[..k + 1];
    } else {
      assert ts[..k + 1] == ts;
    }
  }

  /** What comes after an operand: an operator, a comma, or a closing parenthesis. */
  ghost predicate AfterOperand(ts: seq<Token>, j: int) {
    0 < j < |ts| && (ts[j].IsOp() || ts[j].Comma? || ts[j].CloseP?)
  }

  /** Tokens `i..j` write the tree `e`, and the parenthesis count is the same on both sides. */
  ghost predicate Reads(ts: seq<Token>, i: int, j: int, e: Expr) {
    && 0 < i < j && AfterOperand(ts, j)
    && Shaped(e) && ts[i..j] == Written(e) && Depth(ts[..i]) == Depth(ts[..j])
  }

  lemma EndOfOperand(ts: seq<Token>, j: nat)
    requires Accepted(ts) && 0 < j < |ts| && EndsOperand(ts[j - 1])
    ensures AfterOperand(ts, j)
  {
    assert Follows(ts[j - 1], ts[j]);
    assert ts[j] in ts;
  }

  /** An operand follows every operator, comma and opening parenthesis. */
  lemma OperandNext(ts: seq<Token>, m: nat)
    requires Accepted(ts) && 0 < m < |ts| && (ts[m].IsOp() || ts[m].Comma? || ts[m].OpenP?)
    ensures AtOperand(ts, m + 1) && Depth(ts[..m + 1]) == Depth(ts[..m]) + Nesting(ts[m])
  {
    DepthAt(ts, m - 1);
    DepthAt(ts, m);
    assert Follows(ts[m], ts[m + 1]);
    assert ts[m + 1] in ts;
  }

  lemma {:induction false} ReadLeaf(ts: seq<Token>, i: nat) returns (j: nat, e: Expr)
    requires Accepted(ts) && AtOperand(ts, i) && (ts[i].Number? || ts[i].Name?)
    ensures Reads(ts, i, j, e) && !e.Bin?
  {
    j, e := i + 1, Leaf(ts[i]);
    DepthAt(ts, i - 1);
    DepthAt(ts, i);
    EndOfOperand(ts, j);
  }

  lemma CloseParens(ts: seq<Token>, i: nat, j: nat)
    requires Accepted(ts) && 0 < i < j < |ts| && ts[i].OpenP? && ts[j].CloseP?
    requires Depth(ts[..j]) == Depth(ts[..i]) + 1
    ensures AfterOperand(ts, j + 1) && Depth(ts[..j + 1]) == Depth(ts[..i])
    ensures ts[i..j + 1] == [OpenP] + ts[i + 1..j] + [CloseP]
  {
    hide Accepted, Depth;
    BothEnds(ts, i, j);
    DepthAt(ts, i - 1);
    DepthAt(ts, j);
    EndOfOperand(ts, j + 1);
  }

  lemma BothEnds(ts: seq<Token>, i: nat, j: nat)
    requires i < j < |ts|
    ensures ts[i..j + 1] == [ts[i]] + ts[i + 1..j] + [ts[j]]
  {
  }

  /** A parenthesised list that begins at `i`; it ends just before `j`. */
  lemma {:induction false} ReadParens(ts: seq<Token>, i: nat) returns (j: nat, es: Exprs)
    requires Accepted(ts) && 0 < i < |ts| && ts[i].OpenP?
    ensures i + 2 < j && AfterOperand(ts, j) && ShapedAll(es)
    ensures ts[i..j] == [OpenP] + WrittenAll(es) + [CloseP] && Depth(ts[..i]) == Depth(ts[..j])
    decreases |ts| - i, 0
  {
    OperandNext(ts, i);
    j, es := ReadList(ts, i + 1);
    CloseParens(ts, i, j);
    j := j + 1;
  }

  /** A function is followed by its parenthesis. */
  lemma CallFollows(ts: seq<Token>, i: nat)
    requires Accepted(ts) && AtOperand(ts, i) && ts[i].Func?
    ensures i + 1 < |ts| && ts[i + 1].OpenP? && Depth(ts[..i + 1]) == Depth(ts[..i])
  {
    DepthAt(ts, i - 1);
    DepthAt(ts, i);
    assert Follows(ts[i], ts[i + 1]);
  }

  /** An operand without operators of its own. */
  lemma {:induction false} ReadAtom(ts: seq<Token>, i: nat) returns (j: nat, e: Expr)
    requires Accepted(ts) && AtOperand(ts, i)
    ensures Reads(ts, i, j, e) && !e.Bin?
    decreases |ts| - i, 1
  {
    hide Accepted, Depth;
    if ts[i].Number? || ts[i].Name? {
      j, e := ReadLeaf(ts, i);
    } else if ts[i].OpenP? {
      var es;
      j, es := ReadParens(ts, i);
      e := Group(es);
    } else {
      CallFollows(ts, i);
      var es;
      j, es := ReadParens(ts, i + 1);
      e := Call(ts[i].text, es);
      assert ts[i..j] == [ts[i]] + ts[i + 1..j];
    }
  }

  /** An expression whose operators all bind at least as tightly as `level`. */
  lemma {:induction false} ReadExpr(ts: seq<Token>, i: nat, level: nat) returns (j: nat, e: Expr)
    requires Accepted(ts) && AtOperand(ts, i) && level <= 4
    ensures Reads(ts, i, j, e) && Prec(e) >= level
    ensures ts[j].IsOp() ==> ts[j].Prec() < level
    decreases |ts| - i, 6 - level
  {
    j, e := ReadAtom(ts, i);
    while ts[j].IsOp() && ts[j].Prec() >= level
      invariant Reads(ts, i, j, e) && Prec(e) >= level
      invariant ts[j].IsOp() ==> Prec(e) >= ts[j].Prec()
      decreases |ts| - j
    {
      j, e := ReadBin(ts, i, j, e);
    }
  }

  lemma Splice(ts: seq<Token>, i: nat, m: nat, j: nat)
    requires i <= m < j <= |ts|
    ensures ts[i..j] == ts[i..m] + [ts[m]] + ts[m + 1..j]
  {
  }

  /** One more operator and its right operand. */
  lemma {:induction false} ReadBin(ts: seq<Token>, i: nat, m: nat, l: Expr) returns (j: nat, e: Expr)
    requires Accepted(ts) && Reads(ts, i, m, l) && ts[m].IsOp() && Prec(l) >= ts[m].Prec()
    ensures m < j && Reads(ts, i, j, e) && Prec(e) == ts[m].Prec()
    ensures ts[j].IsOp() ==> ts[j].Prec() <= Prec(e)
    decreases |ts| - m
  {
    OperandNext(ts, m);
    var r;
    j, r := ReadExpr(ts, m + 1, ts[m].Prec() + 1);
    e := Bin(ts[m], l, r);
    Splice(ts, i, m, j);
  }

  /** Expressions between commas, up to the closing parenthesis. */
  lemma {:induction false} ReadList(ts: seq<Token>, i: nat) returns (j: nat, es: Exprs)
    requires Accepted(ts) && AtOperand(ts, i)
    ensures i < j < |ts| && ts[j].CloseP? && ShapedAll(es)
    ensures ts[i..j] == WrittenAll(es) && Depth(ts[..i]) == Depth(ts[..j])
    decreases |ts| - i, 7
  {
    var m, e := ReadExpr(ts, i, 0);
    if ts[m].CloseP? {
      j, es := m, One(e);
    } else {
      OperandNext(ts, m);
      var rest;
      j, rest := ReadList(ts, m + 1);
      es := More(e, rest);
      Splice(ts, i, m, j);
    }
  }

  /** Acceptance is sound and complete: a token list passes the balance and the
      sequence test exactly when it is a list of expressions in parentheses. */
  lemma AcceptedIffWritten(ts: seq<Token>)
    requires |ts| >= 2 && ts[0].OpenP? && ts[|ts| - 1].CloseP? && End !in ts
    ensures Balanced(ts) && Sequenced(ts) <==>
            exists es :: ShapedAll(es) && ts == [OpenP] + WrittenAll(es) + [CloseP]
  {
    if Balanced(ts) && Sequenced(ts) {
      var es := Parse(ts);
    }
    forall es | ShapedAll(es) && ts == [OpenP] + WrittenAll(es) + [CloseP]
      ensures Balanced(ts) && Sequenced(ts)
    {
      WrittenIsAccepted(es);
    }
  }

  lemma {:induction false} Parse(ts: seq<Token>) returns (es: Exprs)
    requires Accepted(ts) && ts[0].OpenP? && ts[|ts| - 1].CloseP?
    ensures ShapedAll(es) && ts == [OpenP] + WrittenAll(es) + [CloseP]
  {
    assert Follows(ts[0], ts[1]);
    assert ts[1] in ts;
    var j;
    j, es := ReadList(ts, 1);
    DepthAt(ts, 0);
    DepthAt(ts, j);
    assert ts == [OpenP] + ts[1..j] + [CloseP];
  }

  lemma {:induction false} WrittenIsAccepted(es: Exprs)
    requires ShapedAll(es)
    ensures Balanced([OpenP] + WrittenAll(es) + [CloseP]) && Sequenced([OpenP] + WrittenAll(es) + [CloseP])
  {
    hide WrittenAll, Balanced, Operand, Sequenced, Depth, Opened;
    WrittenAllIsOperand(es);
    SequencedInParens(WrittenAll(es));
    WrittenAllKeeps([OpenP], es);
    FirstToken();
    BalancedIff([OpenP] + WrittenAll(es));
  }

  lemma SequencedInParens(ts: seq<Token>)
    requires Operand(ts)
    ensures Sequenced([OpenP] + ts + [CloseP])
  {
  }
}

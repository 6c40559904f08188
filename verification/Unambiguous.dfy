/** No two trees are written alike: precedence, associativity and parentheses leave one way
    to read a token list. */
module Unambiguous {
  import opened Basics
  import opened Grammar
  import opened Tokens

  /** `t` may stand outside of all parentheses of a stretch of tokens: no closing
      parenthesis, a comma only if there may be `commas`, and an operator only if it binds
      at least as tightly as `level`. */
  predicate MayBeTop(t: Token, level: nat, commas: bool) {
    !t.CloseP? && (t.Comma? ==> commas) && (t.IsOp() ==> t.Prec() >= level)
  }

  predicate TopAt(ts: seq<Token>, k: nat, level: nat, commas: bool)
    requires k < |ts|
  {
    Depth(ts[..k]) >= 0 && (Depth(ts[..k]) == 0 ==> MayBeTop(ts[k], level, commas))
  }

  /** A stretch of tokens with all of its parentheses matched, and nothing outside of them
      that may not be there. */
  predicate Flat(ts: seq<Token>, level: nat, commas: bool) {
    Depth(ts) == 0 && forall k: nat :: k < |ts| ==> TopAt(ts, k, level, commas)
  }

  lemma DepthOfOne(t: Token)
    ensures Depth([t]) == Nesting(t)
  {
    AppendToken([], t);
    assert [] + [t] == [t];
  }

  lemma FlatOne(t: Token, level: nat, commas: bool)
    requires MayBeTop(t, level, commas) && !t.OpenP?
    ensures Flat([t], level, commas)
  {
    DepthOfOne(t);
    assert [t][..0] == [];
  }

  lemma FlatAgain(ts: seq<Token>, level: nat, commas: bool, level': nat, commas': bool)
    requires Flat(ts, level, commas) && level' <= level && (commas ==> commas')
    ensures Flat(ts, level', commas')
  {
    forall k: nat | k < |ts| ensures TopAt(ts, k, level', commas') {
      assert TopAt(ts, k, level, commas);
    }
  }

  lemma PrefixOfLeft(a: seq<Token>, b: seq<Token>, k: nat)
    requires k < |a|
    ensures (a + b)[..k] == a[..k] && (a + b)[k] == a[k]
  {
  }

  lemma PrefixOfRight(a: seq<Token>, b: seq<Token>, k: nat)
    requires |a| <= k < |a + b|
    ensures Depth((a + b)[..k]) == Depth(a) + Depth(b[..k - |a|]) && (a + b)[k] == b[k - |a|]
  {
    assert (a + b)[..k] == a + b[..k - |a|];
    DepthConcat(a, b[..k - |a|]);
  }

  lemma FlatJoin(a: seq<Token>, b: seq<Token>, level: nat, commas: bool)
    requires Flat(a, level, commas) && Flat(b, level, commas)
    ensures Flat(a + b, level, commas)
  {
    hide Depth, MayBeTop;
    DepthConcat(a, b);
    forall k: nat | k < |a + b| ensures TopAt(a + b, k, level, commas) {
      if k < |a| {
        PrefixOfLeft(a, b, k);
        assert TopAt(a, k, level, commas);
      } else {
        PrefixOfRight(a, b, k);
        assert TopAt(b, k - |a|, level, commas);
      }
    }
  }

  /** Parentheses hide what is in them. */
  lemma FlatParens(ts: seq<Token>, level: nat, commas: bool)
    requires Flat(ts, 0, true)
    ensures Flat([OpenP] + ts + [CloseP], level, commas)
  {
    hide Depth;
    var a, b := [OpenP], ts + [CloseP];
    DepthOfOne(OpenP);
    DepthOfOne(CloseP);
    DepthConcat(ts, [CloseP]);
    DepthConcat(a, b);
    Assoc(a, ts, [CloseP]);
    forall k: nat | k < |a + b| ensures TopAt(a + b, k, level, commas) {
      if k == 0 {
        PrefixOfLeft(a, b, 0);
        DepthOfNothing(a);
      } else {
        PrefixOfRight(a, b, k);
        InParens(ts, k - 1);
      }
    }
  }

  lemma DepthOfNothing(a: seq<Token>)
    ensures Depth(a[..0]) == 0
  {
  }

  lemma InParens(ts: seq<Token>, k: nat)
    requires Flat(ts, 0, true) && k <= |ts|
    ensures Depth((ts + [CloseP])[..k]) >= 0
  {
    hide Depth;
    if k < |ts| {
      PrefixOfLeft(ts, [CloseP], k);
      assert TopAt(ts, k, 0, true);
    } else {
      assert (ts + [CloseP])[..k] == ts;
    }
  }

  lemma {:induction false} WrittenIsFlat(e: Expr)
    requires Shaped(e)
    ensures Flat(Written(e), Prec(e), false)
  {
    hide Flat;
    match e
    case Leaf(t) => FlatOne(t, 4, false);
    case Bin(op, l, r) =>
      var p := op.Prec();
      WrittenIsFlat(l);
      FlatAgain(Written(l), Prec(l), false, p, false);
      FlatOne(op, p, false);
      WrittenIsFlat(r);
      FlatAgain(Written(r), Prec(r), false, p, false);
      FlatJoin(Written(l), [op], p, false);
      FlatJoin(Written(l) + [op], Written(r), p, false);
    case Group(es) =>
      WrittenAllIsFlat(es);
      FlatParens(WrittenAll(es), 4, false);
    case Call(f, es) =>
      WrittenAllIsFlat(es);
      FlatParens(WrittenAll(es), 4, false);
      FlatOne(Func(f), 4, false);
      FlatJoin([Func(f)], [OpenP] + WrittenAll(es) + [CloseP], 4, false);
      CallWritten(f, es);
  }

  lemma CallWritten(f: string, es: Exprs)
    ensures Written(Call(f, es)) == [Func(f)] + ([OpenP] + WrittenAll(es) + [CloseP])
  {
  }

  lemma {:induction false} WrittenAllIsFlat(es: Exprs)
    requires ShapedAll(es)
    ensures Flat(WrittenAll(es), 0, true)
  {
    hide Flat;
    WrittenIsFlat(es.head);
    FlatAgain(Written(es.head), Prec(es.head), false, 0, true);
    if es.More? {
      WrittenAllIsFlat(es.tail);
      FlatOne(Comma, 0, true);
      FlatJoin(Written(es.head), [Comma], 0, true);
      FlatJoin(Written(es.head) + [Comma], WrittenAll(es.tail), 0, true);
    }
  }

  /* ---- where an expression comes apart ---- */

  /** A stretch `a`, a token, and the rest `b`, written as a stretch that is flat: the token
      is outside of its parentheses. */
  lemma TopToken(a: seq<Token>, t: Token, b: seq<Token>, level: nat, commas: bool)
    requires Depth(a) == 0 && Flat(a + [t] + b, level, commas)
    ensures MayBeTop(t, level, commas)
  {
    hide Depth, MayBeTop;
    var ts := a + [t] + b;
    assert TopAt(ts, |a|, level, commas);
    assert ts[..|a|] == a && ts[|a|] == t;
  }

  /** If two splits of the same tokens differ, the first split token is in the later left
      part, and the second one in the earlier right part. */
  lemma SplitsDiffer(a: seq<Token>, t: Token, b: seq<Token>, a': seq<Token>, t': Token, b': seq<Token>)
    returns (mid: seq<Token>)
    requires a + [t] + b == a' + [t'] + b' && |a| < |a'|
    ensures a' == a + [t] + mid && b == mid + [t'] + b'
  {
    mid := a'[|a| + 1..];
    var ts := a + [t] + b;
    assert a == ts[..|a|] == a'[..|a|] && t == ts[|a|] == a'[|a|];
    assert b == ts[|a| + 1..] && b' == ts[|a'| + 1..] && t' == ts[|a'|];
    assert mid == ts[|a| + 1..|a'|];
  }

  lemma SplitsAgree(a: seq<Token>, t: Token, b: seq<Token>, a': seq<Token>, t': Token, b': seq<Token>)
    requires a + [t] + b == a' + [t'] + b' && |a| == |a'|
    ensures a == a' && t == t' && b == b'
  {
    var ts := a + [t] + b;
    assert a == ts[..|a|] == a' && t == ts[|a|] == t';
    assert b == ts[|a| + 1..] == b';
  }

  /** The root of an expression cannot be at two places. */
  lemma RootsAgree(l: Expr, op: Token, r: Expr, l': Expr, op': Token, r': Expr)
    requires Shaped(Bin(op, l, r)) && Shaped(Bin(op', l', r'))
    requires Written(l) + [op] + Written(r) == Written(l') + [op'] + Written(r')
    ensures |Written(l)| >= |Written(l')|
  {
    hide Flat, Written, Depth;
    WrittenIsFlat(l);
    WrittenIsFlat(l');
    WrittenIsFlat(r);
    OneRoot(Written(l), op, Written(r), Prec(l), Prec(r), Written(l'), op', Written(r'), Prec(l'));
  }

  /** A root in the left part of another binds as tightly as that one; a root in the right
      part of another binds tighter. */
  lemma OneRoot(a: seq<Token>, t: Token, b: seq<Token>, pa: nat, pb: nat, a': seq<Token>, t': Token, b': seq<Token>,
                pa': nat)
    requires a + [t] + b == a' + [t'] + b' && t.IsOp() && t'.IsOp() && pb > t.Prec() && pa' >= t'.Prec()
    requires Flat(a, pa, false) && Flat(b, pb, false) && Flat(a', pa', false)
    ensures |a| >= |a'|
  {
    hide Flat, Depth;
    if |a| < |a'| {
      var mid := SplitsDiffer(a, t, b, a', t', b');
      FlatIsMatched(a, pa, false);
      FlatIsMatched(a', pa', false);
      TopToken(a, t, mid, pa', false);
      MidIsMatched(a, t, mid);
      TopToken(mid, t', b', pb, false);
    }
  }

  lemma FlatIsMatched(ts: seq<Token>, level: nat, commas: bool)
    requires Flat(ts, level, commas)
    ensures Depth(ts) == 0
  {
  }

  lemma MidIsMatched(a: seq<Token>, t: Token, mid: seq<Token>)
    requires Depth(a) == 0 && Depth(a + [t] + mid) == 0 && Nesting(t) == 0
    ensures Depth(mid) == 0
  {
    AppendToken(a, t);
    DepthConcat(a + [t], mid);
  }

  /** What has no operator at its root is not written like what has one. */
  lemma RootIsVisible(l: Expr, op: Token, r: Expr, e: Expr)
    requires Shaped(Bin(op, l, r)) && Shaped(e) && !e.Bin?
    ensures Written(Bin(op, l, r)) != Written(e)
  {
    hide Flat, Depth;
    WrittenIsFlat(l);
    WrittenIsFlat(e);
    FlatIsMatched(Written(l), Prec(l), false);
    if Written(Bin(op, l, r)) == Written(e) {
      TopToken(Written(l), op, Written(r), 4, false);
    }
  }

  /** The first comma of a list cannot be inside of an expression. */
  lemma HeadsEnd(h: Expr, rest: seq<Token>, h': Expr)
    requires Shaped(h) && Shaped(h')
    ensures Written(h) + [Comma] + rest != Written(h')
  {
    hide Flat, Depth, Written;
    WrittenIsFlat(h);
    WrittenIsFlat(h');
    FlatIsMatched(Written(h), Prec(h), false);
    if Written(h) + [Comma] + rest == Written(h') {
      TopToken(Written(h), Comma, rest, Prec(h'), false);
    }
  }

  lemma HeadsAgree(h: Expr, rest: seq<Token>, h': Expr, rest': seq<Token>)
    requires Shaped(h) && Shaped(h') && Written(h) + [Comma] + rest == Written(h') + [Comma] + rest'
    ensures |Written(h)| >= |Written(h')|
  {
    hide Written;
    if |Written(h)| < |Written(h')| {
      var mid := SplitsDiffer(Written(h), Comma, rest, Written(h'), Comma, rest');
      HeadsEnd(h, mid, h');
    }
  }

  lemma InnerAgrees(a: seq<Token>, b: seq<Token>)
    requires [OpenP] + a + [CloseP] == [OpenP] + b + [CloseP]
    ensures a == b
  {
    assert a == ([OpenP] + a + [CloseP])[1..|a| + 1];
    assert b == ([OpenP] + b + [CloseP])[1..|b| + 1];
  }

  lemma CallsAgree(f: string, a: seq<Token>, g: string, b: seq<Token>)
    requires [Func(f), OpenP] + a + [CloseP] == [Func(g), OpenP] + b + [CloseP]
    ensures f == g && a == b
  {
    var u, v := [Func(f), OpenP] + a + [CloseP], [Func(g), OpenP] + b + [CloseP];
    assert u[0] == v[0];
    assert a == u[2..|a| + 2] && b == v[2..|b| + 2];
  }

  /** How an expression begins, if it has no operator at its root. */
  lemma AtomBegins(e: Expr)
    requires Shaped(e) && !e.Bin?
    ensures e.Leaf? <==> Written(e)[0].Number? || Written(e)[0].Name?
    ensures e.Group? <==> Written(e)[0].OpenP?
    ensures e.Call? <==> Written(e)[0].Func?
  {
  }

  /** Expressions that are written alike are the same. */
  lemma {:induction false} WrittenIsInjective(e: Expr, e': Expr)
    requires Shaped(e) && Shaped(e') && Written(e) == Written(e')
    ensures e == e'
  {
    if e.Bin? && e'.Bin? {
      RootsAgree(e.left, e.op, e.right, e'.left, e'.op, e'.right);
      RootsAgree(e'.left, e'.op, e'.right, e.left, e.op, e.right);
      SplitsAgree(Written(e.left), e.op, Written(e.right), Written(e'.left), e'.op, Written(e'.right));
      WrittenIsInjective(e.left, e'.left);
      WrittenIsInjective(e.right, e'.right);
    } else if e.Bin? {
      RootIsVisible(e.left, e.op, e.right, e');
    } else if e'.Bin? {
      RootIsVisible(e'.left, e'.op, e'.right, e);
    } else {
      AtomBegins(e);
      AtomBegins(e');
      match e
      case Leaf(_) =>
      case Group(es) =>
        InnerAgrees(WrittenAll(es), WrittenAll(e'.items));
        WrittenAllIsInjective(es, e'.items);
      case Call(f, es) =>
        CallsAgree(f, WrittenAll(es), e'.name, WrittenAll(e'.args));
        WrittenAllIsInjective(es, e'.args);
    }
  }

  lemma {:induction false} WrittenAllIsInjective(es: Exprs, es': Exprs)
    requires ShapedAll(es) && ShapedAll(es') && WrittenAll(es) == WrittenAll(es')
    ensures es == es'
  {
    hide Written;
    if es.More? && es'.More? {
      HeadsAgree(es.head, WrittenAll(es.tail), es'.head, WrittenAll(es'.tail));
      HeadsAgree(es'.head, WrittenAll(es'.tail), es.head, WrittenAll(es.tail));
      SplitsAgree(Written(es.head), Comma, WrittenAll(es.tail), Written(es'.head), Comma, WrittenAll(es'.tail));
      WrittenIsInjective(es.head, es'.head);
      WrittenAllIsInjective(es.tail, es'.tail);
    } else if es.More? {
      HeadsEnd(es.head, WrittenAll(es.tail), es'.head);
    } else if es'.More? {
      HeadsEnd(es'.head, WrittenAll(es'.tail), es.head);
    } else {
      WrittenIsInjective(es.head, es'.head);
    }
  }
}

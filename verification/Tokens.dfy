/**
 Tokens of the expression language, and the first half of the expression
 compiler: turning lexemes into a checked token list.

 Array subscripts are not part of this model, so there are no bracket tokens.
*/
module Tokens {

  datatype Status =
    | Success
    | TokenStackOverflow
    | CloseBeforeOpen
    | MissingClose
    | IllegalTokenSequence
    | IllegalFuncName
    | IllegalNumber
    | OpStackOverflow
    | RpnStackOverflow
    | ValStackUnderflow
    | ValStackOverflow
    | NameNotFound
    | FuncArgOutOfBounds

  /** The length of every stack used while compiling and evaluating. */
  const MAX_EXPR_LEN := 128

  datatype Token =
    | Number(text: string)
    | Name(text: string)
    | Func(text: string)
    | Plus | Minus
    | Times | Divide
    | Power
    | OpenP | CloseP
    | Comma
    | End
  {
    predicate IsOp1() { Plus? || Minus? }

    predicate IsOp2() { Times? || Divide? }

    predicate IsOp3() { Power? }

    predicate IsOp() { IsOp1() || IsOp2() || IsOp3() }

    /** Binding power of a binary operator; everything else binds tightest. */
    function Prec(): nat {
      if IsOp1() then 1 else if IsOp2() then 2 else if IsOp3() then 3 else 4
    }

    /** What may begin an operand. */
    predicate BeginsOperand() { Number? || Name? || Func? || OpenP? }
  }

  /** What a plus or minus gets on its left when it has nothing there. */
  const ZERO: Token := Number("0")

  function Nesting(t: Token): int {
    if t.OpenP? then 1 else if t.CloseP? then -1 else 0
  }

  /** Number of unmatched open parentheses after reading `ts`. */
  function Depth(ts: seq<Token>): int {
    if ts == [] then 0 else Depth(ts[..|ts| - 1]) + Nesting(ts[|ts| - 1])
  }

  lemma AppendToken(ts: seq<Token>, t: Token)
    ensures Depth(ts + [t]) == Depth(ts) + Nesting(t)
    ensures Opened(ts + [t]) <==> Opened(ts) && Depth(ts + [t]) >= 1
  {
    assert (ts + [t])[..|ts|] == ts;
  }

  lemma {:induction false} DepthConcat(a: seq<Token>, b: seq<Token>)
    ensures Depth(a + b) == Depth(a) + Depth(b)
  {
    if b == [] {
      assert a + b == a;
    } else {
      DepthConcat(a, b[..|b| - 1]);
      assert (a + b)[..|a + b| - 1] == a + b[..|b| - 1];
    }
  }

  /** Some parenthesis is open after every token. */
  predicate Opened(ts: seq<Token>) {
    ts == [] || (Depth(ts) >= 1 && Opened(ts[..|ts| - 1]))
  }

  lemma {:induction false} OpenedPrefix(a: seq<Token>, b: seq<Token>)
    requires Opened(a + b)
    ensures Opened(a)
  {
    if b == [] {
      assert a + b == a;
    } else {
      assert (a + b)[..|a + b| - 1] == a + b[..|b| - 1];
      OpenedPrefix(a, b[..|b| - 1]);
    }
  }

  /** A list wrapped in one outermost pair of parentheses that closes only at the end. */
  predicate Balanced(ts: seq<Token>) {
    |ts| >= 2 && Depth(ts) == 0 && Opened(ts[..|ts| - 1])
  }

  predicate NeedsZero(ts: seq<Token>, t: Token)
    requires |ts| > 0
  {
    t.IsOp1() && (ts[|ts| - 1].OpenP? || ts[|ts| - 1].Comma?)
  }

  /** The token list of a lexeme list: an opening parenthesis first, and a `0`
      in front of every plus or minus that has nothing to its left. */
  function Expand(raw: seq<Token>): (ts: seq<Token>)
    ensures |ts| > 0
  {
    if raw == [] then [OpenP]
    else
      var ts := Expand(raw[..|raw| - 1]);
      var t := raw[|raw| - 1];
      (if NeedsZero(ts, t) then ts + [ZERO] else ts) + [t]
  }

  lemma {:induction false} ExpandPrefix(raw: seq<Token>, k: nat)
    requires k <= |raw|
    ensures Expand(raw[..k]) <= Expand(raw)
  {
    if k < |raw| {
      ExpandPrefix(raw[..|raw| - 1], k);
      assert raw[..|raw| - 1][..k] == raw[..k];
    } else {
      assert raw[..k] == raw;
    }
  }

  /** How one more lexeme changes the parenthesis count. */
  lemma ExpandStep(before: seq<Token>, t: Token)
    ensures Depth(Expand(before + [t])) == Depth(Expand(before)) + Nesting(t)
    ensures Opened(Expand(before + [t])) <==> Opened(Expand(before)) && Depth(Expand(before + [t])) >= 1
  {
    var ts := Expand(before);
    assert (before + [t])[..|before|] == before;
    if NeedsZero(ts, t) {
      AppendToken(ts, ZERO);
      AppendToken(ts + [ZERO], t);
      assert Expand(before + [t]) == ts + [ZERO] + [t];
    } else {
      AppendToken(ts, t);
      assert Expand(before + [t]) == ts + [t];
    }
  }

  lemma ExpandAt(raw: seq<Token>, k: nat)
    requires k < |raw|
    ensures Depth(Expand(raw[..k + 1])) == Depth(Expand(raw[..k])) + Nesting(raw[k])
    ensures Opened(Expand(raw[..k + 1])) <==> Opened(Expand(raw[..k])) && Depth(Expand(raw[..k + 1])) >= 1
    ensures |Expand(raw[..k + 1])| <= |Expand(raw)|
  {
    ExpandStep(raw[..k], raw[k]);
    ExpandPrefix(raw, k + 1);
    assert raw[..k] + [raw[k]] == raw[..k + 1];
  }

  /** Appends one token, unless the token array is full. */
  method AddToken(token: array<Token>, ntoken: nat, t: Token) returns (ok: bool, n: nat)
    requires token.Length == MAX_EXPR_LEN && 0 <= ntoken < MAX_EXPR_LEN
    modifies token
    ensures ok <==> ntoken < MAX_EXPR_LEN - 1
    ensures ok ==> n == ntoken + 1 && token[..n] == old(token[..ntoken]) + [t]
  {
    ok, n := ntoken < MAX_EXPR_LEN - 1, ntoken;
    if ok {
      token[n], n := t, n + 1;
    }
  }

  /** Adds the tokens of one lexeme. */
  method AddLexeme(raw: seq<Token>, istr: nat, token: array<Token>, ntoken: nat) returns (ok: bool, n: nat)
    requires token.Length == MAX_EXPR_LEN && 1 <= ntoken < MAX_EXPR_LEN
    requires istr < |raw| && token[..ntoken] == Expand(raw[..istr])
    modifies token
    ensures ok <==> |Expand(raw[..istr + 1])| < 128
    ensures ok ==> 1 <= n < 128 && token[..n] == Expand(raw[..istr + 1])
  {
    assert raw[..istr + 1][..istr] == raw[..istr];
    ok, n := true, ntoken;
    if raw[istr].IsOp1() && (token[n - 1].OpenP? || token[n - 1].Comma?) {
      ok, n := AddToken(token, n, ZERO);
      if !ok { return; }
    }
    ok, n := AddToken(token, n, raw[istr]);
  }

  /** Why a lexeme list is turned away before it is looked at as a token list. */
  predicate Rejected(raw: seq<Token>, status: Status) {
    match status
    case CloseBeforeOpen => !Opened(Expand(raw))
    case MissingClose => Opened(Expand(raw)) && Depth(Expand(raw)) > 1
    case TokenStackOverflow => |Expand(raw)| + 1 >= 128
    case _ => false
  }

  lemma CloseIsRejected(raw: seq<Token>, k: nat)
    requires k <= |raw| && !Opened(Expand(raw[..k]))
    ensures Rejected(raw, CloseBeforeOpen)
  {
    ExpandPrefix(raw, k);
    if Opened(Expand(raw)) {
      var ts := Expand(raw[..k]);
      assert Expand(raw) == ts + Expand(raw)[|ts|..];
      OpenedPrefix(ts, Expand(raw)[|ts|..]);
    }
  }

  lemma FirstToken()
    ensures Expand([]) == [OpenP] && Depth([OpenP]) == 1 && Opened([OpenP])
  {
    AppendToken([], OpenP);
    assert [] + [OpenP] == [OpenP];
  }

  /** What one more closing parenthesis has to find. */
  lemma BalancedIff(ts: seq<Token>)
    requires |ts| > 0
    ensures Balanced(ts + [CloseP]) <==> Depth(ts) == 1 && Opened(ts)
  {
    hide Depth, Opened;
    AppendToken(ts, CloseP);
    assert (ts + [CloseP])[..|ts|] == ts;
  }

  /** Lines up the lexemes as tokens, inside one more pair of parentheses. */
  method Tokenize(raw: seq<Token>) returns (status: Status, tokens: seq<Token>)
    ensures status == Success <==> |Expand(raw)| + 1 < 128 && Balanced(Expand(raw) + [CloseP])
    ensures status == Success ==> tokens == Expand(raw) + [CloseP]
    ensures status != Success ==> Rejected(raw, status)
  {
    hide Expand, Depth, Opened, Balanced;
    var token := new Token[MAX_EXPR_LEN];
    var nparen := 1;
    tokens := [];
    FirstToken();
    BalancedIff(Expand(raw));
    var ok, ntoken := AddToken(token, 0, OpenP);
    var istr := 0;
    while istr < |raw|
      invariant 0 <= istr <= |raw|
      invariant 1 <= ntoken < MAX_EXPR_LEN
      invariant token[..ntoken] == Expand(raw[..istr])
      invariant nparen == Depth(token[..ntoken]) && Opened(token[..ntoken])
    {
      ExpandAt(raw, istr);
      ok, ntoken := AddLexeme(raw, istr, token, ntoken);
      if !ok { return TokenStackOverflow, []; }
      if raw[istr].OpenP? {
        nparen := nparen + 1;
      } else if raw[istr].CloseP? {
        nparen := nparen - 1;
        if nparen < 1 {
          CloseIsRejected(raw, istr + 1);
          return CloseBeforeOpen, [];
        }
      }
      istr := istr + 1;
    }
    assert raw[..istr] == raw;
    ok, ntoken := AddToken(token, ntoken, CloseP);
    if !ok { return TokenStackOverflow, []; }
    nparen := nparen - 1;
    if nparen > 0 { return MissingClose, []; }
    status, tokens := Success, token[..ntoken];
  }

  /** Which token may come right after which. */
  predicate Follows(a: Token, b: Token) {
    match a
    case Func(_) => b.OpenP?
    case Number(_) => !b.BeginsOperand()
    case Name(_) => !b.BeginsOperand()
    case CloseP => !b.BeginsOperand()
    case End => true
    case _ => !(b.IsOp() || b.CloseP? || b.Comma?)
  }

  predicate Sequenced(ts: seq<Token>) {
    forall i :: 0 <= i < |ts| - 1 ==> Follows(ts[i], ts[i + 1])
  }

  const FUNCTIONS: set<string> := {
    "pi", "min", "max", "sqrt", "abs", "int", "nint", "exp", "log", "log10",
    "sin", "sind", "asin", "asind", "cos", "cosd", "acos", "acosd",
    "tan", "tand", "atan", "atand", "atan2", "atan2d", "hypot",
    "Xcent", "Ycent", "Xmidl", "Ymidl", "turnang", "tangent",
    "ifzero", "ifpos", "ifneg"
  }

  function Points(s: string): nat {
    if s == "" then 0 else Points(s[..|s| - 1]) + if s[|s| - 1] == '.' then 1 else 0
  }

  predicate TwoPoints(s: string) {
    exists i, j :: 0 <= i < j < |s| && s[i] == '.' && s[j] == '.'
  }

  lemma {:induction false} SomePoint(s: string)
    ensures Points(s) > 0 <==> '.' in s
  {
    if s != "" {
      SomePoint(s[..|s| - 1]);
      assert s == s[..|s| - 1] + [s[|s| - 1]];
    }
  }

  lemma {:induction false} TwoPointsIff(s: string)
    ensures Points(s) > 1 <==> TwoPoints(s)
  {
    if s != "" {
      var init, n := s[..|s| - 1], |s| - 1;
      TwoPointsIff(init);
      SomePoint(init);
      if TwoPoints(init) {
        var i, j :| 0 <= i < j < n && init[i] == '.' && init[j] == '.';
        assert s[i] == '.' && s[j] == '.';
      }
      if s[n] == '.' && '.' in init {
        var i :| 0 <= i < n && init[i] == '.';
        assert s[i] == '.';
      }
      if TwoPoints(s) {
        var i, j :| 0 <= i < j < |s| && s[i] == '.' && s[j] == '.';
        assert init[i] == '.' && (j < n ==> init[j] == '.');
      }
    }
  }

  /** A token whose own text is acceptable. */
  predicate WellSpelled(t: Token) {
    (t.Func? ==> t.text in FUNCTIONS) && (t.Number? ==> Points(t.text) <= 1)
  }

  /** Proper sequencing, known function names, well-formed numbers, in that order. */
  method CheckTokens(token: seq<Token>) returns (status: Status)
    ensures status in {Success, IllegalTokenSequence, IllegalFuncName, IllegalNumber}
    ensures status == IllegalTokenSequence <==> !Sequenced(token)
    ensures status == Success <==> Sequenced(token) && forall t :: t in token ==> WellSpelled(t)
    ensures status == IllegalFuncName ==> exists t :: t in token && t.Func? && t.text !in FUNCTIONS
    ensures status == IllegalNumber ==> forall t :: t in token && t.Func? ==> t.text in FUNCTIONS
    ensures status == IllegalNumber ==> exists t :: t in token && t.Number? && TwoPoints(t.text)
    ensures status == Success ==> forall t :: t in token && t.Number? ==> !TwoPoints(t.text)
  {
    hide TwoPoints;
    var i := 0;
    while i < |token| - 1
      invariant 0 <= i
      invariant forall k :: 0 <= k < i && k < |token| - 1 ==> Follows(token[k], token[k + 1])
    {
      if !Follows(token[i], token[i + 1]) { return IllegalTokenSequence; }
      i := i + 1;
    }
    i := 0;
    while i < |token|
      invariant 0 <= i <= |token|
      invariant forall k :: 0 <= k < i && token[k].Func? ==> token[k].text in FUNCTIONS
    {
      assert token[i] in token;
      if token[i].Func? && token[i].text !in FUNCTIONS { return IllegalFuncName; }
      i := i + 1;
    }
    i := 0;
    while i < |token|
      invariant 0 <= i <= |token|
      invariant forall k :: 0 <= k < i ==> WellSpelled(token[k]) && (token[k].Number? ==> !TwoPoints(token[k].text))
    {
      assert token[i] in token;
      if token[i].Number? {
        var count, j := 0, 0;
        while j < |token[i].text|
          invariant 0 <= j <= |token[i].text|
          invariant count == Points(token[i].text[..j])
        {
          assert token[i].text[..j + 1][..j] == token[i].text[..j];
          if token[i].text[j] == '.' { count := count + 1; }
          j := j + 1;
        }
        assert token[i].text[..j] == token[i].text;
        TwoPointsIff(token[i].text);
        if count > 1 { return IllegalNumber; }
      }
      i := i + 1;
    }
    status := Success;
  }
}

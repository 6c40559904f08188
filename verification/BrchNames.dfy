/** Names of Branches: the numbered ones that new Branches get, and the ones that users give. */
module BrchNames {

  predicate AllDigits(s: string) {
    forall i :: 0 <= i < |s| ==> '0' <= s[i] <= '9'
  }

  function Digit(d: nat): char
    requires d < 10
  {
    '0' + d as char
  }

  /** `n` in decimal. */
  function Decimal(n: nat): (s: string)
    ensures s != "" && AllDigits(s)
  {
    if n < 10 then [Digit(n)] else Decimal(n / 10) + [Digit(n % 10)]
  }

  function Zeros(k: nat): (s: string)
    ensures |s| == k && AllDigits(s) && forall i :: 0 <= i < k ==> s[i] == '0'
  {
    if k == 0 then "" else Zeros(k - 1) + "0"
  }

  /** The name that the `n`-th new Branch gets: at least six digits after the prefix. */
  function DefaultName(n: nat): string {
    var d := Decimal(n);
    "Brch_" + (if |d| < 6 then Zeros(6 - |d|) else "") + d
  }

  predicate IsReserved(name: string) { "Brch_" <= name }

  /** The number that a string of digits stands for. */
  function Value(s: string): nat
    requires AllDigits(s)
  {
    if s == "" then 0 else Value(s[..|s| - 1]) * 10 + (s[|s| - 1] - '0') as nat
  }

  lemma {:induction false} ValueOfDecimal(n: nat)
    ensures Value(Decimal(n)) == n
  {
    var s := Decimal(n);
    if n < 10 {
      assert s[..0] == "" && Value("") == 0;
    } else {
      ValueOfDecimal(n / 10);
      assert s[..|s| - 1] == Decimal(n / 10);
    }
  }

  lemma {:induction false} ValueOfZeros(k: nat, s: string)
    requires AllDigits(s)
    ensures Value(Zeros(k) + s) == Value(s)
    decreases |s|, k
  {
    var t := Zeros(k) + s;
    if s != "" {
      ValueOfZeros(k, s[..|s| - 1]);
      assert t[..|t| - 1] == Zeros(k) + s[..|s| - 1];
    } else if k > 0 {
      assert t == Zeros(k) && t[..k - 1] == Zeros(k - 1) + "";
      ValueOfZeros(k - 1, "");
    } else {
      assert t == "";
    }
  }

  lemma ValueOfName(n: nat)
    ensures AllDigits(DefaultName(n)[5..])
    ensures Value(DefaultName(n)[5..]) == n
  {
    hide Value, Decimal, Zeros;
    var d := Decimal(n);
    var z := if |d| < 6 then Zeros(6 - |d|) else "";
    assert DefaultName(n)[5..] == z + d;
    if |d| < 6 { ValueOfZeros(6 - |d|, d); } else { assert z + d == d; }
    ValueOfDecimal(n);
  }

  lemma {:induction false} NoLeadingZero(n: nat)
    ensures n > 0 ==> Decimal(n)[0] != '0'
  {
    if n >= 10 { NoLeadingZero(n / 10); }
  }

  /** A numbered name has six digits, or as many more as its number needs. */
  lemma NameIsSpelled(n: nat)
    ensures "Brch_" <= DefaultName(n) && |DefaultName(n)| >= 11
    ensures |DefaultName(n)| > 11 ==> DefaultName(n)[5] != '0'
  {
    NoLeadingZero(n);
    assert n == 0 ==> |Decimal(n)| == 1;
    assert DefaultName(n)[..5] == "Brch_";
  }

  /** No two numbered names are the same. */
  lemma DefaultNamesDiffer(m: nat, n: nat)
    requires DefaultName(m) == DefaultName(n)
    ensures m == n
  {
    hide DefaultName, Value;
    ValueOfName(m);
    ValueOfName(n);
  }

  /** A name that can be in a model whose next number is `next`. */
  ghost predicate Allowed(name: string, next: nat) {
    IsReserved(name) ==> exists n: nat :: n < next && name == DefaultName(n)
  }

  lemma NewNameIsNew(name: string, next: nat)
    requires Allowed(name, next)
    ensures name != DefaultName(next) && Allowed(DefaultName(next), next + 1)
  {
    if name == DefaultName(next) {
      var n: nat :| n < next && name == DefaultName(n);
      DefaultNamesDiffer(n, next);
    }
  }
}

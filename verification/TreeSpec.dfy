/** What the browser's Tree shows, told from the parents of its Nodes alone. Node 0 is the
    root; Nodes are numbered in the order in which they were added. */
module TreeSpec {
  import opened Basics

  /** Every Node but the root was added after its parent. */
  predicate IsTree(par: seq<int>) {
    |par| > 0 && par[0] == -1 && forall i :: 0 < i < |par| ==> 0 <= par[i] < i
  }

  /** The first child of `p` numbered `k` or above, or -1. */
  function FirstKid(par: seq<int>, p: int, k: nat): (r: int)
    ensures r == -1 || (k <= r < |par| && par[r] == p)
    ensures forall i :: k <= i < |par| && (r == -1 || i < r) ==> par[i] != p
    decreases |par| - k
  {
    if k >= |par| then -1 else if par[k] == p then k else FirstKid(par, p, k + 1)
  }

  /** A row of the table: a Node, or the gap that follows a Node of the root that has
      children. */
  datatype Row = Node(inode: nat) | Gap

  function GapAfter(par: seq<int>, i: nat): seq<Row>
    requires i < |par|
  {
    if par[i] == 0 && FirstKid(par, i, i + 1) >= 0 then [Gap] else []
  }

  /** Each child of `p` numbered `k` or above, followed by all that is below it. */
  function Rows(par: seq<int>, p: int, k: nat): seq<Row>
    decreases |par| - k
  {
    if k >= |par| then []
    else if par[k] == p then [Node(k)] + Rows(par, k, k + 1) + GapAfter(par, k) + Rows(par, p, k + 1)
    else Rows(par, p, k + 1)
  }

  /** What follows Node `i` and all that is below it. */
  function After(par: seq<int>, i: nat): seq<Row>
    requires IsTree(par) && i < |par|
    decreases i
  {
    if i == 0 then [] else Rows(par, par[i], i + 1) + GapAfter(par, par[i]) + After(par, par[i])
  }

  /** What is left of the table when its walk is at Node `i`. */
  function Rest(par: seq<int>, i: nat): (r: seq<Row>)
    requires IsTree(par) && i < |par|
    ensures i > 0 ==> r != []
  {
    if i == 0 then [] else [Node(i)] + Rows(par, i, i + 1) + GapAfter(par, i) + After(par, i)
  }

  /* ---- one step of the walk ---- */

  lemma RowsAt(par: seq<int>, p: int, k: nat)
    ensures Rows(par, p, k) ==
            if k >= |par| then []
            else if par[k] == p then [Node(k)] + Rows(par, k, k + 1) + GapAfter(par, k) + Rows(par, p, k + 1)
            else Rows(par, p, k + 1)
  {
    hide GapAfter;
  }

  lemma KidAt(par: seq<int>, p: int, k: nat)
    ensures FirstKid(par, p, k) == if k >= |par| then -1 else if par[k] == p then k else FirstKid(par, p, k + 1)
  {
  }

  /** Only children matter, so the first of them is a place to start. */
  lemma {:induction false} RowsFrom(par: seq<int>, p: int, k: nat)
    ensures var c := FirstKid(par, p, k);
            Rows(par, p, k) == if c < 0 then [] else [Node(c)] + Rows(par, c, c + 1) + GapAfter(par, c) + Rows(par, p, c + 1)
    decreases |par| - k
  {
    hide Rows, FirstKid, GapAfter;
    RowsAt(par, p, k);
    KidAt(par, p, k);
    if k < |par| && par[k] != p { RowsFrom(par, p, k + 1); }
  }

  lemma RegroupRows(n: seq<Row>, h: seq<Row>, d: seq<Row>, e: seq<Row>, f: seq<Row>)
    ensures n + (h + d) + e + f == n + (h + (d + e + f))
  {
    Assoc(n, h + d, e);
    Assoc(n, h + d + e, f);
    Assoc(h, d, e);
    Assoc(h, d + e, f);
  }

  lemma Regroup(a: seq<Row>, b: seq<Row>, c: seq<Row>, d: seq<Row>, e: seq<Row>, f: seq<Row>)
    ensures a + b + c + d + e + f == a + b + c + (d + e + f)
  {
  }

  /** Down to the first child. */
  lemma GoDown(par: seq<int>, i: nat)
    requires IsTree(par) && 0 < i < |par| && FirstKid(par, i, i + 1) >= 0
    ensures Rest(par, i) == [Node(i)] + Rest(par, FirstKid(par, i, i + 1))
  {
    hide FirstKid, Rows, GapAfter;
    var c := FirstKid(par, i, i + 1);
    RowsFrom(par, i, i + 1);
    var h := [Node(c)] + Rows(par, c, c + 1) + GapAfter(par, c);
    RegroupRows([Node(i)], h, Rows(par, i, c + 1), GapAfter(par, i), After(par, i));
  }

  /** On to the next sibling, of a Node without children. */
  lemma GoOn(par: seq<int>, i: nat)
    requires IsTree(par) && 0 < i < |par| && FirstKid(par, i, i + 1) < 0 && FirstKid(par, par[i], i + 1) >= 0
    ensures Rest(par, i) == [Node(i)] + Rest(par, FirstKid(par, par[i], i + 1))
  {
    hide FirstKid, Rows;
    RowsFrom(par, i, i + 1);
    assert Rest(par, i) == [Node(i)] + After(par, i);
    NextSibling(par, i);
  }

  lemma NextSibling(par: seq<int>, i: nat)
    requires IsTree(par) && 0 < i < |par| && FirstKid(par, par[i], i + 1) >= 0
    ensures After(par, i) == Rest(par, FirstKid(par, par[i], i + 1))
  {
    hide FirstKid, Rows, GapAfter;
    var p: nat, s: nat := par[i], FirstKid(par, par[i], i + 1);
    RowsFrom(par, p, i + 1);
    var a, b, g, d, e, f := [Node(s)], Rows(par, s, s + 1), GapAfter(par, s), Rows(par, p, s + 1), GapAfter(par, p), After(par, p);
    Regroup(a, b, g, d, e, f);
  }

  /** Up to the parent, of a Node without a next sibling. */
  lemma GoUp(par: seq<int>, i: nat)
    requires IsTree(par) && 0 < i < |par| && FirstKid(par, par[i], i + 1) < 0
    ensures After(par, i) == (if par[i] > 0 && par[par[i]] == 0 then [Gap] else []) + After(par, par[i])
  {
    hide Rows;
    RowsFrom(par, par[i], i + 1);
  }

  /** The whole table, when its walk begins at Node 1. */
  lemma WholeTable(par: seq<int>)
    requires IsTree(par) && |par| > 1
    ensures Rest(par, 1) == Rows(par, 0, 1)
  {
    hide FirstKid;
    assert Rows(par, 0, 1) == [Node(1)] + Rows(par, 1, 2) + GapAfter(par, 1) + Rows(par, 0, 2);
    assert After(par, 1) == Rows(par, 0, 2) + [] + [];
  }

  /* ---- each Node has exactly one row ---- */

  /** The child of `p` that Node `i` is or is below, or -1. */
  function Via(par: seq<int>, i: int, p: int): int
    requires IsTree(par) && i < |par|
    decreases i
  {
    if i <= 0 then -1 else if par[i] == p then i else Via(par, par[i], p)
  }

  /** How often Node `i` is in a list of rows. */
  function Count(rows: seq<Row>, i: nat): nat {
    multiset(rows)[Node(i)]
  }

  lemma CountConcat(a: seq<Row>, b: seq<Row>, i: nat)
    ensures Count(a + b, i) == Count(a, i) + Count(b, i)
  {
  }

  lemma CountOne(k: nat, i: nat)
    ensures Count([Node(k)], i) == (if i == k then 1 else 0) && Count([Gap], i) == 0 && Count([], i) == 0
  {
  }

  /** Below `p` by way of `k` means being `k` or below `k`. */
  lemma {:induction false} ViaKid(par: seq<int>, i: int, p: int, k: nat)
    requires IsTree(par) && 0 < i < |par| && 0 < k < |par| && par[k] == p
    ensures Via(par, i, p) == k <==> i == k || Via(par, i, k) > k
    decreases i
  {
    if par[i] == k { ViaAbove(par, k, p); }
    if i != k && par[i] > 0 { ViaKid(par, par[i], p, k); }
    ViaBounds(par, par[i], k);
    ViaBounds(par, i, p);
    if par[i] == 0 { ViaZero(par, p); }
  }

  lemma ViaZero(par: seq<int>, p: int)
    requires IsTree(par)
    ensures Via(par, 0, p) == -1
  {
  }

  lemma ViaAbove(par: seq<int>, k: nat, p: int)
    requires IsTree(par) && 0 < k < |par| && par[k] == p
    ensures Via(par, k, p) == k
  {
  }

  lemma {:induction false} ViaBounds(par: seq<int>, i: int, p: int)
    requires IsTree(par) && i < |par|
    ensures Via(par, i, p) == -1 || (0 < Via(par, i, p) <= i && par[Via(par, i, p)] == p && p < Via(par, i, p))
    decreases i
  {
    if i > 0 && par[i] != p { ViaBounds(par, par[i], p); }
  }

  /** The Nodes below `p` by way of its children from `k` on have one row each, and
      there is no row for any other Node. */
  lemma {:induction false} RowsCount(par: seq<int>, p: int, k: nat, i: nat)
    requires IsTree(par) && 0 < k && 0 < i < |par|
    ensures Count(Rows(par, p, k), i) == if Via(par, i, p) >= k then 1 else 0
    decreases |par| - k
  {
    hide Count, FirstKid;
    ViaBounds(par, i, p);
    CountOne(k, i);
    if k < |par| {
      RowsCount(par, p, k + 1, i);
      if par[k] == p {
        RowsCount(par, k, k + 1, i);
        ViaKid(par, i, p, k);
        var a, b, g, d := [Node(k)], Rows(par, k, k + 1), GapAfter(par, k), Rows(par, p, k + 1);
        CountConcat(a + b + g, d, i);
        CountConcat(a + b, g, i);
        CountConcat(a, b, i);
        assert Rows(par, p, k) == a + b + g + d;
        assert Count(g, i) == 0;
        ViaBounds(par, i, k);
      } else {
        ViaIsKid(par, i, p, k);
      }
    }
  }

  lemma ViaIsKid(par: seq<int>, i: nat, p: int, k: nat)
    requires IsTree(par) && i < |par| && k < |par| && par[k] != p
    ensures Via(par, i, p) != k
  {
    ViaBounds(par, i, p);
  }

  lemma {:induction false} RootIsAbove(par: seq<int>, i: int)
    requires IsTree(par) && 0 < i < |par|
    ensures Via(par, i, 0) > 0
    decreases i
  {
    if par[i] > 0 { RootIsAbove(par, par[i]); }
  }

  /** Every Node but the root has exactly one row. */
  lemma EveryNodeOnce(par: seq<int>, i: nat)
    requires IsTree(par) && 0 < i < |par|
    ensures Count(Rows(par, 0, 1), i) == 1
  {
    hide Count, Rows;
    RowsCount(par, 0, 1, i);
    RootIsAbove(par, i);
  }

  /* ---- what is shown ---- */

  /** Node `a` is above Node `i`. */
  predicate Above(par: seq<int>, a: int, i: int)
    requires IsTree(par) && i < |par|
    decreases i
  {
    i > 0 && (par[i] == a || Above(par, a, par[i]))
  }

  /** A row is shown when every Node above its own, but for the root, is open. */
  ghost predicate Shown(par: seq<int>, flags: seq<int>, i: nat)
    requires IsTree(par) && |flags| == |par| && i < |par|
  {
    forall a :: 0 < a < |par| && Above(par, a, i) ==> flags[a] != 0
  }

  /** Who is open after Node `i` is contracted: it and, but for the root, all below it are not. */
  function Contracted(par: seq<int>, flags: seq<int>, i: nat): seq<int>
    requires IsTree(par) && |flags| == |par| && i < |par|
  {
    seq(|par|, j requires 0 <= j < |par| => if j == i || (i > 0 && Above(par, i, j)) then 0 else flags[j])
  }

  lemma {:induction false} AboveChain(par: seq<int>, a: int, b: int, i: int)
    requires IsTree(par) && i < |par| && b < |par| && Above(par, b, i) && Above(par, a, b)
    ensures Above(par, a, i)
    decreases i
  {
    if par[i] != b { AboveChain(par, a, b, par[i]); }
  }

  lemma {:induction false} AboveIsEarlier(par: seq<int>, a: int, i: int)
    requires IsTree(par) && i < |par| && Above(par, a, i)
    ensures 0 <= a < i
    decreases i
  {
    if par[i] != a { AboveIsEarlier(par, a, par[i]); }
  }

  /** Contracting a Node that is shown and expanding it again leaves, of all that is
      below it, just its children shown. */
  lemma ContractThenExpand(par: seq<int>, flags: seq<int>, i: nat, d: nat)
    requires IsTree(par) && |flags| == |par| && 0 < i < |par| && d < |par| && Above(par, i, d)
    requires Shown(par, flags, i)
    ensures Shown(par, Contracted(par, flags, i)[i := 1], d) <==> par[d] == i
  {
    var now := Contracted(par, flags, i)[i := 1];
    AboveIsEarlier(par, i, d);
    if par[d] == i {
      forall a | 0 < a < |par| && Above(par, a, d) ensures now[a] != 0 {
        if a != i {
          assert Above(par, a, i);
          AboveIsEarlier(par, a, i);
          NotBothAbove(par, a, i);
        }
      }
    } else {
      var p := par[d];
      assert Above(par, i, p);
      AboveIsEarlier(par, i, p);
      assert now[p] == 0 && Above(par, p, d);
    }
  }

  lemma NotBothAbove(par: seq<int>, a: int, i: int)
    requires IsTree(par) && 0 <= a < |par| && 0 <= i < |par| && Above(par, a, i)
    ensures !Above(par, i, a) && a != i
  {
    AboveIsEarlier(par, a, i);
    if Above(par, i, a) { AboveIsEarlier(par, i, a); }
  }

  /** Rows that are not below the Node are shown just when they were. */
  lemma OthersStay(par: seq<int>, flags: seq<int>, i: nat, j: nat)
    requires IsTree(par) && |flags| == |par| && 0 < i < |par| && j < |par| && !Above(par, i, j)
    ensures Shown(par, Contracted(par, flags, i), j) <==> Shown(par, flags, j)
    ensures Shown(par, Contracted(par, flags, i)[i := 1], j) <==> Shown(par, flags, j)
  {
    forall a | 0 < a < |par| && Above(par, a, j)
      ensures Contracted(par, flags, i)[a] == flags[a] && a != i
    {
      if Above(par, i, a) { AboveChain(par, i, a, j); }
    }
  }
}

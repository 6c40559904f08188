/** Choosing one of several Bodys: the `index`-th in increasing order of some measure. */
module SelectBody {

  /** The order of the choice: smaller data first, and on ties the lower position. */
  predicate Before(data: seq<real>, i: nat, j: nat)
    requires i < |data| && j < |data|
  {
    data[i] < data[j] || (data[i] == data[j] && i < j)
  }

  ghost function AllBefore(data: seq<real>, i: nat): set<nat>
    requires i < |data|
  {
    set j: nat | j < |data| && Before(data, j, i)
  }

  /** How many entries come before entry `i`. */
  ghost function Rank(data: seq<real>, i: nat): nat
    requires i < |data|
  {
    |AllBefore(data, i)|
  }

  lemma SmallerSet(a: set<nat>, b: set<nat>)
    requires a < b
    ensures |a| < |b|
  {
    var x :| x in b && x !in a;
    assert a <= b - {x};
    SubsetSize(a, b - {x});
  }

  lemma {:induction false} SubsetSize(a: set<nat>, b: set<nat>)
    requires a <= b
    ensures |a| <= |b|
    decreases |a|
  {
    if a != {} {
      var x :| x in a;
      SubsetSize(a - {x}, b - {x});
    }
  }

  /** No two entries have the same rank. */
  lemma RankIsUnique(data: seq<real>, i: nat, j: nat)
    requires i < |data| && j < |data| && Rank(data, i) == Rank(data, j)
    ensures i == j
  {
    if i != j {
      var x, y := if Before(data, i, j) then i else j, if Before(data, i, j) then j else i;
      assert x in AllBefore(data, y) && x !in AllBefore(data, x);
      assert AllBefore(data, x) < AllBefore(data, y);
      SmallerSet(AllBefore(data, x), AllBefore(data, y));
    }
  }

  /** The first of the smallest entries. */
  method Smallest(data: array<real>) returns (imin: nat)
    requires data.Length > 0
    ensures imin < data.Length
    ensures forall j: nat :: j < data.Length && j != imin ==> Before(data[..], imin, j)
  {
    var datamin := data[0];
    imin := 0;
    var i := 1;
    while i < data.Length
      invariant imin < i <= data.Length && datamin == data[imin]
      invariant forall j: nat :: j < i ==> datamin <= data[j]
      invariant forall j: nat :: j < i && j != imin ==> Before(data[..], imin, j)
    {
      if data[i] < datamin { datamin, imin := data[i], i; }
      i := i + 1;
    }
  }

  method Largest(data: array<real>) returns (datamax: real)
    requires data.Length > 0
    ensures forall j :: 0 <= j < data.Length ==> data[j] <= datamax
  {
    datamax := data[0];
    var i := 1;
    while i < data.Length
      invariant 1 <= i <= data.Length
      invariant forall j :: 0 <= j < i ==> data[j] <= datamax
    {
      if data[i] > datamax { datamax := data[i]; }
      i := i + 1;
    }
  }

  /** `moved` are the first entries of `was`; only they have changed in `now`, to
      numbers above all of `was`. */
  ghost predicate Moved(was: seq<real>, now: seq<real>, moved: set<nat>, top: real) {
    && |now| == |was|
    && (forall i: nat :: i in moved ==> i < |was|)
    && (forall i: nat :: i < |was| ==> was[i] <= top)
    && (forall i: nat :: i < |was| ==> if i in moved then now[i] > top else now[i] == was[i])
    && (forall i: nat, j: nat :: i in moved && j < |was| && j !in moved ==> Before(was, i, j))
  }

  lemma {:induction false} AllOf(s: set<nat>, n: nat)
    requires forall i: nat :: i < n ==> i in s
    ensures |s| >= n
    decreases n
  {
    if n > 0 { AllOf(s - {n - 1}, n - 1); }
  }

  /** The smallest entry now is the first that has not been moved. */
  lemma SmallestIsNext(was: seq<real>, now: seq<real>, moved: set<nat>, top: real, imin: nat)
    requires Moved(was, now, moved, top) && |moved| < |was| && imin < |was|
    requires forall j: nat :: j < |was| && j != imin ==> Before(now, imin, j)
    ensures imin !in moved && AllBefore(was, imin) == moved
  {
    if forall i: nat :: i < |was| ==> i in moved { AllOf(moved, |was|); }
    var u: nat :| u < |was| && u !in moved;
    assert now[u] == was[u] <= top;
    assert u != imin ==> Before(now, imin, u);
    assert imin !in moved;
    forall j: nat | j < |was| && j !in moved && j != imin ensures Before(was, imin, j) {
      assert Before(now, imin, j);
    }
  }

  /** The position of the entry that `index - 1` entries come before. */
  method Select(data: array<real>, index: int) returns (r: nat)
    requires 1 <= index <= data.Length
    modifies data
    ensures r < data.Length && Rank(old(data[..]), r) == index - 1
  {
    ghost var was := data[..];
    if data.Length == 1 {
      assert AllBefore(was, 0) == {};
      return 0;
    }
    var datamax := Largest(data);
    ghost var top := datamax;
    ghost var moved: set<nat> := {};
    var j := 0;
    while j < index - 1
      invariant 0 <= j <= index - 1 && |moved| == j && datamax >= top
      invariant Moved(was, data[..], moved, top)
    {
      var imin := Smallest(data);
      SmallestIsNext(was, data[..], moved, top, imin);
      datamax := datamax + 1.0;
      data[imin] := datamax;
      NextMoved(was, moved, imin);
      moved := moved + {imin};
      j := j + 1;
    }
    r := Smallest(data);
    SmallestIsNext(was, data[..], moved, top, r);
  }

  lemma NextMoved(was: seq<real>, moved: set<nat>, imin: nat)
    requires imin < |was| && AllBefore(was, imin) == moved
    ensures forall j: nat :: j < |was| && j !in moved && j != imin ==> Before(was, imin, j)
  {
    forall j: nat | j < |was| && j !in moved && j != imin ensures Before(was, imin, j) {
      assert j !in AllBefore(was, imin);
    }
  }
}

/** Links from Bodys to the Bodys made from them, and the search for the first Body that
    two Faces have in common. */
module BodyGraph {

  /** Every Body was made after the Bodys it was made from; Body 0 is not used. */
  predicate Forward(ichld: seq<int>) {
    |ichld| > 0 && forall j :: 0 < j < |ichld| ==> ichld[j] == 0 || j < ichld[j] < |ichld|
  }

  /** Body `i`, the Body made from it, and so on. */
  function Chain(ichld: seq<int>, i: int): set<int>
    requires Forward(ichld) && i < |ichld|
    decreases if i > 0 then |ichld| - i else 0
  {
    if i <= 0 then {} else {i} + Chain(ichld, ichld[i])
  }

  lemma {:induction false} ChainBounds(ichld: seq<int>, i: int, k: int)
    requires Forward(ichld) && i < |ichld| && k in Chain(ichld, i)
    ensures 0 < i <= k < |ichld|
    decreases if i > 0 then |ichld| - i else 0
  {
    if k != i { ChainBounds(ichld, ichld[i], k); }
  }

  /** From any Body of a chain on, the chain is the chain of that Body. */
  lemma {:induction false} ChainFrom(ichld: seq<int>, i: int, m: int, k: int)
    requires Forward(ichld) && i < |ichld| && m in Chain(ichld, i) && m < |ichld|
    ensures k in Chain(ichld, i) && k >= m <==> k in Chain(ichld, m)
    decreases if i > 0 then |ichld| - i else 0
  {
    if i != m {
      ChainBounds(ichld, ichld[i], m);
      ChainFrom(ichld, ichld[i], m, k);
    } else if k in Chain(ichld, i) {
      ChainBounds(ichld, i, k);
    }
  }

  /** `m` is where the chains of `l` and `r` merge: from there on they are the same, and
      before that they have nothing in common. */
  ghost predicate Merge(ichld: seq<int>, l: int, r: int, m: int)
    requires Forward(ichld) && l < |ichld| && r < |ichld|
  {
    && m in Chain(ichld, l) && m in Chain(ichld, r) && m < |ichld|
    && Chain(ichld, l) * Chain(ichld, r) == Chain(ichld, m)
  }

  /** The first Body that two chains have in common is where they merge. */
  lemma FirstCommonIsMerge(ichld: seq<int>, l: int, r: int, m: int)
    requires Forward(ichld) && l < |ichld| && r < |ichld| && m < |ichld|
    requires m in Chain(ichld, l) && m in Chain(ichld, r)
    requires forall k :: k in Chain(ichld, l) && k in Chain(ichld, r) ==> m <= k
    ensures Merge(ichld, l, r, m)
  {
    forall k ensures k in Chain(ichld, l) * Chain(ichld, r) <==> k in Chain(ichld, m) {
      ChainFrom(ichld, l, m, k);
      ChainFrom(ichld, r, m, k);
    }
  }

  lemma MergeIsUnique(ichld: seq<int>, l: int, r: int, m: int, m': int)
    requires Forward(ichld) && l < |ichld| && r < |ichld|
    requires Merge(ichld, l, r, m) && Merge(ichld, l, r, m')
    ensures m == m'
  {
    assert m in Chain(ichld, m') && m' in Chain(ichld, m);
    ChainBounds(ichld, m, m');
    ChainBounds(ichld, m', m);
  }

  const NO_COMMON_BODY := -4

  class Model {
    var ichld: seq<int>

    constructor ()
      ensures Forward(ichld) && ichld == [0]
    {
      ichld := [0];
    }

    /** Make a Body from up to two others. */
    method NewBody(ileft: int, irite: int) returns (ibody: int)
      requires Forward(ichld) && ileft < |ichld| && irite < |ichld|
      modifies this
      ensures Forward(ichld) && ibody == |old(ichld)| && |ichld| == ibody + 1 && ichld[ibody] == 0
      ensures forall j :: 0 < j < ibody ==> ichld[j] == if j == ileft || j == irite then ibody else old(ichld)[j]
    {
      ibody := |ichld|;
      ichld := ichld + [0];
      if ileft > 0 { ichld := ichld[ileft := ibody]; }
      if irite > 0 { ichld := ichld[irite := ibody]; }
    }

    /** Link one more sketch to the loft made from it. */
    method LinkSketch(ibodyl: int, ibody: int)
      requires Forward(ichld) && 0 < ibodyl < ibody < |ichld|
      modifies this
      ensures Forward(ichld) && ichld == old(ichld)[ibodyl := ibody]
    {
      ichld := ichld[ibodyl := ibody];
    }

    /** Can Body `ibody` be got to from Body `from`? */
    method Reaches(from: int, ibody: int) returns (okay: bool)
      requires Forward(ichld) && from < |ichld|
      ensures okay <==> ibody in Chain(ichld, from)
    {
      var i := from;
      while i > 0
        invariant i < |ichld|
        invariant ibody in Chain(ichld, from) <==> ibody in Chain(ichld, i)
        decreases if i > 0 then |ichld| - i else 0
      {
        if i == ibody { return true; }
        i := ichld[i];
      }
      return false;
    }

    /** The Body of the Edge between two Faces, of the Bodys `left` and `rite`: where
        their chains merge, if they do. */
    method CommonBody(left: int, rite: int) returns (ibody: int)
      requires Forward(ichld) && left < |ichld| && rite < |ichld|
      ensures left == rite ==> ibody == left && (0 < left ==> Merge(ichld, left, rite, ibody))
      ensures left != rite && Chain(ichld, left) !! Chain(ichld, rite) ==> ibody == -4
      ensures left != rite && !(Chain(ichld, left) !! Chain(ichld, rite)) ==> Merge(ichld, left, rite, ibody)
    {
      if left == rite {
        if left > 0 { SameBodyMerges(ichld, left); }
        return left;
      }
      forall k | k in Chain(ichld, left) ensures 1 <= k < |ichld| {
        ChainBounds(ichld, left, k);
      }
      ibody := 1;
      while ibody < |ichld|
        invariant 1 <= ibody <= |ichld|
        invariant forall k :: k in Chain(ichld, left) && k in Chain(ichld, rite) ==> ibody <= k
      {
        var okayl := Reaches(left, ibody);
        var okayr := Reaches(rite, ibody);
        if okayl && okayr {
          FirstCommonIsMerge(ichld, left, rite, ibody);
          return;
        }
        ibody := ibody + 1;
      }
      ibody := NO_COMMON_BODY;
    }
  }

  /** Two Faces of the same Body need no search: their chains merge there. */
  lemma SameBodyMerges(ichld: seq<int>, i: int)
    requires Forward(ichld) && 0 < i < |ichld|
    ensures Merge(ichld, i, i, i)
  {
  }
}

/** The browser's Tree: parallel arrays that grow, linked by first child and next sibling,
    and walked without a stack. */
module ViewTree {
  import opened Basics
  import opened TreeSpec

  lemma {:induction false} FirstKidGrows(par: seq<int>, x: int, p: int, k: nat)
    requires k <= |par|
    ensures FirstKid(par + [x], p, k) ==
            if FirstKid(par, p, k) >= 0 then FirstKid(par, p, k) else if x == p then |par| else -1
    decreases |par| - k
  {
    if k < |par| { FirstKidGrows(par, x, p, k + 1); }
  }

  /** The links are those of the tree that the parents make. */
  ghost predicate Linked(par: seq<int>, child: seq<int>, next: seq<int>) {
    && IsTree(par) && |child| == |next| == |par| && next[0] == -1
    && (forall i: nat {:trigger child[i]} :: i < |par| ==> child[i] == FirstKid(par, i, i + 1))
    && (forall i: nat {:trigger next[i]} :: 0 < i < |par| ==> next[i] == FirstKid(par, par[i], i + 1))
  }

  /** The first child of `p` is linked to its parent. */
  lemma FirstChildIsLinked(par: seq<int>, child: seq<int>, next: seq<int>, p: nat)
    requires Linked(par, child, next) && p < |par| && child[p] < 0
    ensures Linked(par + [p], (child + [-1])[p := |par|], next + [-1])
  {
    hide FirstKid;
    var n, par', kids := |par|, par + [p], (child + [-1])[p := |par|];
    forall i: nat | i <= n ensures kids[i] == FirstKid(par', i, i + 1) {
      KidsAfterAdding(par, p, i, i + 1);
    }
    forall i: nat | 0 < i <= n ensures (next + [-1])[i] == FirstKid(par', par'[i], i + 1) {
      KidsAfterAdding(par, p, par'[i], i + 1);
      if i < n && par[i] == p { NoKidNoSibling(par, p, i); }
    }
  }

  /** The last child of `p` so far is linked to the next one. */
  lemma NextSiblingIsLinked(par: seq<int>, child: seq<int>, next: seq<int>, p: nat, j: nat)
    requires Linked(par, child, next) && p < |par| && child[p] >= 0
    requires 0 < j < |par| && par[j] == p && next[j] < 0
    ensures Linked(par + [p], child + [-1], (next + [-1])[j := |par|])
  {
    hide FirstKid;
    var n, par', sibs := |par|, par + [p], (next + [-1])[j := |par|];
    forall i: nat | i <= n ensures (child + [-1])[i] == FirstKid(par', i, i + 1) {
      KidsAfterAdding(par, p, i, i + 1);
    }
    forall i: nat | 0 < i <= n ensures sibs[i] == FirstKid(par', par'[i], i + 1) {
      KidsAfterAdding(par, p, par'[i], i + 1);
      if i < n && par[i] == p { OneLastChild(par, p, i, j); }
    }
  }

  /** Children after a Node is added below `p`. */
  lemma KidsAfterAdding(par: seq<int>, p: nat, q: int, k: nat)
    ensures FirstKid(par + [p], q, k) ==
            if FirstKid(par, q, k) >= 0 then FirstKid(par, q, k) else if p == q && k <= |par| then |par| else -1
  {
    if k <= |par| { FirstKidGrows(par, p, q, k); }
  }

  lemma NoKidNoSibling(par: seq<int>, p: nat, i: nat)
    requires IsTree(par) && 0 < i < |par| && par[i] == p
    ensures FirstKid(par, p, p + 1) >= 0
  {
  }

  /** Of the children of `p` only the last has no next sibling. */
  lemma OneLastChild(par: seq<int>, p: nat, i: nat, j: nat)
    requires i < |par| && j < |par| && par[i] == p && par[j] == p && FirstKid(par, p, j + 1) < 0
    ensures FirstKid(par, p, i + 1) < 0 <==> i == j
  {
  }

  class Tree {
    var parent: seq<int>
    var child: seq<int>
    var next: seq<int>
    var isOpen: seq<int>

    ghost predicate Valid()
      reads this
    {
      Linked(parent, child, next) && |isOpen| == |parent|
    }

    constructor ()
      ensures Valid() && parent == [-1] && isOpen == [1]
    {
      parent, child, next, isOpen := [-1], [-1], [-1], [1];
    }

    /** Add a Node below `iparent`, as its last child. */
    method AddNode(iparent: int)
      requires Valid()
      modifies this
      ensures Valid()
      ensures 0 <= iparent < |old(parent)| ==> parent == old(parent) + [iparent] && isOpen == old(isOpen) + [0]
      ensures !(0 <= iparent < |old(parent)|) ==> parent == old(parent) && isOpen == old(isOpen)
    {
      hide FirstKid;
      if iparent < 0 || iparent >= |parent| { return; }
      ghost var par, kids, sibs := parent, child, next;
      var inode := |parent|;
      parent := parent + [iparent];
      child := child + [-1];
      next := next + [-1];
      isOpen := isOpen + [0];
      if child[iparent] < 0 {
        child := child[iparent := inode];
        FirstChildIsLinked(par, kids, sibs, iparent);
      } else {
        var jnode := child[iparent];
        while next[jnode] >= 0
          invariant 0 < jnode < inode && par[jnode] == iparent
          invariant next == sibs + [-1] && |sibs| == inode && next[jnode] == sibs[jnode]
          decreases inode - jnode
        {
          jnode := next[jnode];
        }
        next := next[jnode := inode];
        NextSiblingIsLinked(par, kids, sibs, iparent, jnode);
      }
    }

    /** Write the table: a row for each Node below the root, and the gaps between. */
    method Build() returns (rows: seq<Row>)
      requires Valid() && |parent| > 1
      ensures rows == Rows(parent, 0, 1)
    {
      hide Rows, FirstKid;
      rows := [];
      var inode: int := 1;
      WholeTable(parent);
      while inode > 0
        invariant 0 <= inode < |parent|
        invariant rows + Rest(parent, inode) == Rows(parent, 0, 1)
        decreases |Rest(parent, inode)|
      {
        hide Rest, After, GapAfter;
        ghost var before, at := rows, inode;
        rows := rows + [Node(inode)];
        if child[inode] >= 0 {
          GoDown(parent, inode);
          inode := child[inode];
          Assoc(before, [Node(at)], Rest(parent, inode));
        } else if next[inode] >= 0 {
          GoOn(parent, inode);
          inode := next[inode];
          Assoc(before, [Node(at)], Rest(parent, inode));
        } else {
          NoKids(parent, inode);
          Assoc(before, [Node(at)], After(parent, inode));
          inode, rows := ClimbFrom(inode, rows);
        }
      }
    }

    /** Up from a Node without a next sibling, to the next sibling of a Node above it. */
    method ClimbFrom(start: nat, written: seq<Row>) returns (inode: nat, rows: seq<Row>)
      requires Valid() && 0 < start < |parent| && next[start] < 0
      ensures inode < |parent| && rows + Rest(parent, inode) == written + After(parent, start)
      ensures |Rest(parent, inode)| <= |After(parent, start)|
    {
      hide FirstKid, Rows, GapAfter;
      inode, rows := start, written;
      while inode > 0
        invariant inode < |parent| && (inode > 0 ==> next[inode] < 0)
        invariant rows + After(parent, inode) == written + After(parent, start)
        invariant |After(parent, inode)| <= |After(parent, start)|
        decreases inode
      {
        ghost var before := rows;
        GoUp(parent, inode);
        inode := parent[inode];
        if parent[inode] == 0 {
          rows := rows + [Gap];
          Assoc(before, [Gap], After(parent, inode));
        } else {
          assert [] + After(parent, inode) == After(parent, inode);
        }
        if next[inode] >= 0 {
          NextSibling(parent, inode);
          inode := next[inode];
          break;
        }
      }
    }

    /** Drop all Nodes but the root. */
    method Clear()
      requires Valid()
      modifies this
      ensures Valid() && parent == [-1] && isOpen == old(isOpen)[..1]
    {
      parent, child, next, isOpen := parent[..1], child[..1], next[..1], isOpen[..1];
      parent, child, next := parent[0 := -1], child[0 := -1], next[0 := -1];
    }

    /** Close a Node and all Nodes below it. */
    method Contract(inode: int) returns (shown: seq<bool>)
      requires Valid()
      modifies this`isOpen
      ensures Valid()
      ensures isOpen == if 0 <= inode < |parent| then Contracted(parent, old(isOpen), inode) else old(isOpen)
      ensures 0 <= inode < |parent| ==> ShowsRows(shown)
    {
      hide FirstKid, Shown;
      shown := [];
      if inode < 0 || inode >= |isOpen| { return; }
      ghost var was := isOpen;
      isOpen := isOpen[inode := 0];
      var jnode := 1;
      while jnode < |parent|
        invariant 1 <= jnode <= |parent| && Valid()
        invariant forall j: nat :: j < |parent| ==>
                    isOpen[j] == if j == inode || (inode > 0 && j < jnode && Above(parent, inode, j)) then 0 else was[j]
      {
        var isBelow := IsBelow(jnode, inode);
        if isBelow { isOpen := isOpen[jnode := 0]; }
        jnode := jnode + 1;
      }
      assert isOpen == Contracted(parent, was, inode) by { AboveRootFirst(parent, inode); }
      shown := Update();
    }

    /** Is Node `jnode` below Node `inode`, the root not counting? */
    method IsBelow(jnode: nat, inode: nat) returns (isBelow: bool)
      requires Valid() && jnode < |parent| && inode < |parent|
      ensures isBelow <==> inode > 0 && Above(parent, inode, jnode)
    {
      var iparent := parent[jnode];
      while iparent > 0
        invariant -1 <= iparent < |parent|
        invariant inode > 0 ==> (Above(parent, inode, jnode) <==> iparent == inode || Above(parent, inode, iparent))
        decreases iparent
      {
        if iparent == inode { return true; }
        iparent := parent[iparent];
      }
      return false;
    }

    /** Open a Node. */
    method Expand(inode: int) returns (shown: seq<bool>)
      requires Valid()
      modifies this`isOpen
      ensures Valid()
      ensures isOpen == if 0 <= inode < |parent| then old(isOpen)[inode := 1] else old(isOpen)
      ensures 0 <= inode < |parent| ==> ShowsRows(shown)
    {
      shown := [];
      if inode < 0 || inode >= |isOpen| { return; }
      isOpen := isOpen[inode := 1];
      shown := Update();
    }

    /** What is on the screen is what should be shown. */
    ghost predicate ShowsRows(shown: seq<bool>)
      reads this
      requires IsTree(parent) && |isOpen| == |parent|
    {
      |shown| == |parent| && forall i: nat :: 0 < i < |parent| ==> (shown[i] <==> Shown(parent, isOpen, i))
    }

    /** Decide for each row whether it is shown. */
    method Update() returns (shown: seq<bool>)
      requires Valid()
      ensures ShowsRows(shown)
    {
      shown := [false];
      var inode := 1;
      while inode < |isOpen|
        invariant 1 <= inode <= |parent| == |isOpen| && |shown| == inode
        invariant forall i: nat :: 0 < i < inode ==> (shown[i] <==> Shown(parent, isOpen, i))
      {
        var visible := IsShown(inode);
        shown := shown + [visible];
        inode := inode + 1;
      }
    }

    method IsShown(inode: nat) returns (visible: bool)
      requires Valid() && 0 < inode < |parent|
      ensures visible <==> Shown(parent, isOpen, inode)
    {
      var jnode := parent[inode];
      StepUp(parent, inode);
      while jnode != 0
        invariant 0 <= jnode < |parent|
        invariant forall a :: Above(parent, a, inode) && a > jnode ==> a < |parent| && isOpen[a] != 0
        invariant forall a :: Above(parent, a, inode) && a <= jnode <==> a == jnode || Above(parent, a, jnode)
        decreases jnode
      {
        if isOpen[jnode] == 0 {
          assert Above(parent, jnode, inode);
          return false;
        }
        StepUp(parent, jnode);
        jnode := parent[jnode];
      }
      return true;
    }
  }

  lemma NoKids(par: seq<int>, i: nat)
    requires IsTree(par) && 0 < i < |par| && FirstKid(par, i, i + 1) < 0
    ensures Rest(par, i) == [Node(i)] + After(par, i)
  {
    hide FirstKid;
    RowsFrom(par, i, i + 1);
  }

  lemma AboveRootFirst(par: seq<int>, i: nat)
    requires IsTree(par) && i < |par|
    ensures !Above(par, i, 0)
  {
  }

  lemma StepUp(par: seq<int>, j: nat)
    requires IsTree(par) && 0 < j < |par|
    ensures forall a :: Above(par, a, j) ==> a <= par[j]
    ensures forall a :: Above(par, a, j) <==> a == par[j] || Above(par, a, par[j])
  {
    forall a | Above(par, a, j) ensures a <= par[j] {
      if a != par[j] { AboveIsEarlier(par, a, par[j]); }
    }
  }
}

/** The table of Branches: new Branches, deleted ones, their names, and copies of all of it. */
module BrchTable {
  import opened Basics
  import opened Branches
  import opened BrchNames

  datatype TableStatus = Ok | IllegalBrchIndex | IllegalType | IllegalNarg | NameNotUnique | IllegalPmtr

  /** What becomes of the Parameter that a set or a patbeg needs. */
  datatype PmtrStep = Exists | Created | Refused

  /** A Branch as it is stored: nine places for arguments, those not given empty. */
  datatype Entry = Entry(name: string, brch: Brch, args: seq<Option<string>>)

  const BLANK := Entry("", Brch(Mark, Active, 0, 0, 0), [])

  /** How many arguments a Branch takes. */
  function Narg(t: Type, args: seq<Option<string>>): (n: nat)
    requires |args| == 9
    ensures n <= 9
  {
    match t
    case Box => 6
    case Sphere => 4
    case Cone | Cylinder => 7
    case Torus => 8
    case Import => 1
    case UdPrim =>
      if args[7].Some? && args[8].Some? then 9
      else if args[5].Some? && args[6].Some? then 7
      else if args[3].Some? && args[4].Some? then 5
      else if args[1].Some? && args[2].Some? then 3
      else 1
    case Extrude => 3
    case Revolve => 7
    case Loft => 1
    case Fillet | Chamfer => 2
    case Hollow => 7
    case Intersect | Subtract => 2
    case Union => 0
    case Translate | RotateX | RotateY | RotateZ => 3
    case Scale => 1
    case SkBeg | LinSeg | Spline => 3
    case CirArc => 6
    case SkEnd => 0
    case SolBeg | SolCon => 1
    case SolEnd => 0
    case Set => 2
    case MacBeg | Recall => 1
    case MacEnd | PatEnd | Mark => 0
    case PatBeg | Dump => 2
  }

  predicate Given(a: Option<string>) { a.Some? && a.value != "" }

  predicate AllGiven(t: Type, args: seq<Option<string>>)
    requires |args| == 9
  {
    forall i :: 0 <= i < Narg(t, args) ==> Given(args[i])
  }

  /** The arguments as they are stored. */
  function Kept(t: Type, args: seq<Option<string>>): (r: seq<Option<string>>)
    requires |args| == 9
    ensures |r| == 9
  {
    seq(9, i requires 0 <= i < 9 => if i < Narg(t, args) && Given(args[i]) then args[i] else None)
  }

  function NewEntry(seqnum: nat, t: Type, args: seq<Option<string>>): Entry
    requires |args| == 9
  {
    Entry(DefaultName(seqnum), Brch(t, Active, -1, -1, -1), Kept(t, args))
  }

  /** A Branch of type `t` takes `n` arguments. */
  predicate Wants(t: Type, n: nat) {
    match n
    case 0 => t in {Union, SkEnd, SolEnd, MacEnd, PatEnd, Mark}
    case 1 => t in {Import, Loft, Scale, SolBeg, SolCon, MacBeg, Recall}
    case 2 => t in {Fillet, Chamfer, Intersect, Subtract, Set, PatBeg, Dump}
    case 3 => t in {Extrude, Translate, RotateX, RotateY, RotateZ, SkBeg, LinSeg, Spline}
    case 4 => t in {Sphere}
    case 6 => t in {Box, CirArc}
    case 7 => t in {Cone, Cylinder, Revolve, Hollow}
    case 8 => t in {Torus}
    case _ => false
  }

  lemma NargIs(t: Type, n: nat, args: seq<Option<string>>)
    requires |args| == 9 && Wants(t, n)
    ensures Narg(t, args) == n
  {
  }

  /** All of the arguments that a Branch wants are asked for, and those alone are kept. */
  lemma ArgumentsByType(t: Type, n: nat, args: seq<Option<string>>)
    requires |args| == 9 && Wants(t, n)
    ensures AllGiven(t, args) <==> forall i :: 0 <= i < n ==> args[i].Some? && args[i].value != ""
    ensures n <= 9
    ensures forall i :: 0 <= i < 9 ==>
              Kept(t, args)[i] == if i < n && args[i].Some? && args[i].value != "" then args[i] else None
  {
    hide Narg, Wants;
    NargIs(t, n, args);
  }

  /** A user-defined PRIMITIVE takes a name, and then pairs: up to the last of the four that
      is complete. */
  lemma PairsOfUdPrim(args: seq<Option<string>>, k: nat)
    requires |args| == 9 && k <= 4 && (k > 0 ==> args[2 * k - 1].Some? && args[2 * k].Some?)
    requires forall j: nat :: k < j <= 4 ==> args[2 * j - 1].None? || args[2 * j].None?
    ensures AllGiven(UdPrim, args) <==> forall i :: 0 <= i <= 2 * k ==> args[i].Some? && args[i].value != ""
  {
    assert forall j: nat :: k < j <= 4 ==> args[2 * j - 1].None? || args[2 * j].None?;
    assert Narg(UdPrim, args) == 2 * k + 1 by {
      if k < 4 { assert args[7].None? || args[8].None? by { assert args[2 * 4 - 1].None? || args[2 * 4].None?; } }
      if k < 3 { assert args[5].None? || args[6].None? by { assert args[2 * 3 - 1].None? || args[2 * 3].None?; } }
      if k < 2 { assert args[3].None? || args[4].None? by { assert args[2 * 2 - 1].None? || args[2 * 2].None?; } }
      if k < 1 { assert args[1].None? || args[2].None? by { assert args[2 * 1 - 1].None? || args[2 * 1].None?; } }
    }
  }

  function Inserted(l: seq<Entry>, i: nat, e: Entry): seq<Entry>
    requires i <= |l|
  {
    l[..i] + [e] + l[i..]
  }

  function Deleted(l: seq<Entry>, i: nat): seq<Entry>
    requires i < |l|
  {
    l[..i] + l[i + 1..]
  }

  /** Deleting a Branch that was just inserted restores the table. */
  lemma DeleteUndoesInsert(l: seq<Entry>, i: nat, e: Entry)
    requires i <= |l|
    ensures Deleted(Inserted(l, i, e), i) == l
  {
    var m := Inserted(l, i, e);
    assert m[..i] == l[..i] && m[i + 1..] == l[i..];
  }

  /** Names are told apart, and the numbered ones are from before `next`. */
  ghost predicate Named(l: seq<Entry>, next: nat) {
    && (forall i :: 0 <= i < |l| ==> |l[i].args| == 9)
    && (forall i, j :: 0 <= i < j < |l| ==> l[i].name != l[j].name)
    && (forall i :: 0 <= i < |l| ==> Allowed(l[i].name, next))
  }

  lemma NamedAfterInsert(l: seq<Entry>, i: nat, e: Entry, next: nat)
    requires Named(l, next) && i <= |l| && e.name == DefaultName(next) && |e.args| == 9
    ensures Named(Inserted(l, i, e), next + 1)
  {
    hide DefaultName, IsReserved;
    forall k | 0 <= k < |l| ensures l[k].name != e.name && Allowed(l[k].name, next + 1) {
      NewNameIsNew(l[k].name, next);
    }
    NewNameAllowed(next);
  }

  lemma NewNameAllowed(next: nat)
    ensures Allowed(DefaultName(next), next + 1)
  {
  }

  lemma NamedWithoutLast(l: seq<Entry>, next: nat)
    requires Named(l, next) && |l| > 0
    ensures Named(l[..|l| - 1], next)
  {
    hide Allowed;
  }

  lemma NamedAfterDelete(l: seq<Entry>, i: nat, next: nat)
    requires Named(l, next) && i < |l|
    ensures Named(Deleted(l, i), next)
  {
    hide Allowed;
  }

  lemma GapIsClosed(b: seq<Entry>, c: seq<Entry>, n: nat, i: nat)
    requires |b| == |c| && 1 <= i <= n + 1 < |b|
    requires forall k {:trigger c[k]} :: 0 <= k < i ==> c[k] == b[k]
    requires forall k {:trigger c[k]} :: i <= k <= n ==> c[k] == b[k + 1]
    ensures c[1..n + 1] == Deleted(b[1..n + 2], i - 1)
  {
    var l := b[1..n + 2];
    assert c[1..i] == l[..i - 1];
    assert c[i..n + 1] == l[i..];
    assert c[1..n + 1] == c[1..i] + c[i..n + 1];
  }

  lemma RoomIsFilled(b: seq<Entry>, c: seq<Entry>, n: nat, i: nat, e: Entry)
    requires i < n <= |b| && n < |c| && c[i + 1] == e
    requires forall k {:trigger c[k]} :: 0 <= k <= i ==> c[k] == b[k]
    requires forall k {:trigger c[k]} :: i + 2 <= k <= n ==> c[k] == b[k - 1]
    ensures c[1..n + 1] == Inserted(b[1..n], i, e)
  {
    var l := b[1..n];
    assert c[1..i + 1] == l[..i];
    assert c[i + 2..n + 1] == l[i..];
    assert c[1..n + 1] == c[1..i + 1] + [c[i + 1]] + c[i + 2..n + 1];
  }

  lemma NamedArgs(l: seq<Entry>, next: nat)
    requires Named(l, next)
    ensures forall i :: 0 <= i < |l| ==> |l[i].args| == 9
  {
  }

  class Table {
    var brch: seq<Entry>
    var nbrch: int
    var nextseq: nat
    var checked: bool

    ghost predicate Valid()
      reads this
    {
      |brch| > 0 && nbrch < |brch| && Named(Branches(), nextseq)
    }

    /** The Branches of the model, in order. */
    ghost function Branches(): seq<Entry>
      reads this
      requires |brch| > 0 && nbrch < |brch|
    {
      if nbrch < 0 then [] else brch[1..nbrch + 1]
    }

    constructor ()
      ensures Valid() && nbrch == 0 && Branches() == [] && nextseq == 1 && !checked
    {
      brch, nbrch, nextseq, checked := [BLANK], 0, 1, false;
    }

    /** Open a gap after Branch `iafter`, and count one Branch more. */
    method MakeRoom(iafter: nat)
      requires |brch| > 0 && iafter <= nbrch < |brch|
      modifies this`brch, this`nbrch
      ensures nbrch == old(nbrch) + 1 < |brch|
      ensures forall k {:trigger brch[k]} :: 0 <= k <= iafter ==> brch[k] == old(brch)[k]
      ensures forall k {:trigger brch[k]} :: iafter + 2 <= k <= nbrch ==> brch[k] == old(brch)[k - 1]
    {
      nbrch := nbrch + 1;
      var ibrch := iafter + 1;
      if nbrch >= |brch| { brch := brch + seq(25, _ => BLANK); }
      ghost var b := brch;
      var jbrch := nbrch;
      while jbrch > ibrch
        invariant ibrch <= jbrch <= nbrch == old(nbrch) + 1 < |brch| == |b|
        invariant forall k {:trigger brch[k]} :: 0 <= k <= jbrch ==> brch[k] == b[k]
        invariant forall k {:trigger brch[k]} :: jbrch < k <= nbrch ==> brch[k] == b[k - 1]
      {
        brch := brch[jbrch := brch[jbrch - 1]];
        jbrch := jbrch - 1;
      }
    }

    method SaveArgs(t: Type, args: seq<Option<string>>) returns (kept: seq<Option<string>>, status: TableStatus)
      requires |args| == 9
      ensures kept == Kept(t, args) && status == if AllGiven(t, args) then Ok else IllegalNarg
    {
      hide Narg, Given;
      kept, status := [], Ok;
      var i := 0;
      while i < 9
        invariant 0 <= i <= 9 == |args| && |kept| == i
        invariant forall k :: 0 <= k < i ==> kept[k] == Kept(t, args)[k]
        invariant status == if forall k :: 0 <= k < i && k < Narg(t, args) ==> Given(args[k]) then Ok else IllegalNarg
      {
        if i < Narg(t, args) {
          if Given(args[i]) {
            kept := kept + [args[i]];
          } else {
            kept := kept + [None];
            status := IllegalNarg;
          }
        } else {
          kept := kept + [None];
        }
        i := i + 1;
      }
    }

    /** Add a Branch after Branch `iafter`. A type that does not exist is None. */
    method NewBrch(iafter: int, typ: Option<Type>, args: seq<Option<string>>, pmtr: PmtrStep)
      returns (status: TableStatus)
      requires Valid() && |args| == 9
      requires typ in {Some(Set), Some(PatBeg)} ==> args[0].Some?
      modifies this
      ensures Valid()
      ensures status == NewStatus(old(nbrch), iafter, typ, args, pmtr)
      ensures status in {IllegalBrchIndex, IllegalType} ==>
                brch == old(brch) && nbrch == old(nbrch) - 1 && nextseq == old(nextseq) && checked == old(checked)
      ensures status !in {IllegalBrchIndex, IllegalType} ==>
                var l := Inserted(old(Branches()), iafter, NewEntry(old(nextseq), typ.value, args));
                && nextseq == old(nextseq) + 1 && !checked
                && Branches() == (if status == Ok then l else l[..|l| - 1])
                && nbrch == (if status == Ok then old(nbrch) + 1 else old(nbrch))
    {
      hide Named, Allowed, DefaultName, Narg, AllGiven, Kept, Inserted;
      ghost var was, next := Branches(), nextseq;
      if iafter < 0 || iafter > nbrch {
        nbrch := nbrch - 1;
        OneFewer(was, brch, nbrch, next);
        return IllegalBrchIndex;
      }
      if typ.None? {
        nbrch := nbrch - 1;
        OneFewer(was, brch, nbrch, next);
        return IllegalType;
      }
      checked := false;
      MakeRoom(iafter);
      var kept;
      kept, status := SaveArgs(typ.value, args);
      var e := Entry(DefaultName(nextseq), Brch(typ.value, Active, -1, -1, -1), kept);
      brch := brch[iafter + 1 := e];
      nextseq := nextseq + 1;
      if typ.value in {Set, PatBeg} {
        if pmtr.Created? { status := Ok; }
        if pmtr.Refused? { status := IllegalPmtr; }
      }
      ghost var l := Inserted(was, iafter, e);
      RoomIsFilled(old(brch), brch, nbrch, iafter, e);
      NamedAfterInsert(was, iafter, e, next);
      if status != Ok {
        nbrch := nbrch - 1;
        OneFewer(l, brch, nbrch, nextseq);
      }
    }

    /** Write over Branch `ibrch` with the ones after it, and count one Branch less. */
    method CloseGap(ibrch: nat)
      requires 1 <= ibrch <= nbrch < |brch|
      modifies this`brch, this`nbrch
      ensures nbrch == old(nbrch) - 1 && |brch| == |old(brch)|
      ensures forall k {:trigger brch[k]} :: 0 <= k < ibrch ==> brch[k] == old(brch)[k]
      ensures forall k {:trigger brch[k]} :: ibrch <= k <= nbrch ==> brch[k] == old(brch)[k + 1]
    {
      ghost var b := brch;
      var jbrch := ibrch;
      while jbrch < nbrch
        invariant ibrch <= jbrch <= nbrch == old(nbrch) < |brch| == |b|
        invariant forall k {:trigger brch[k]} :: 0 <= k < ibrch ==> brch[k] == b[k]
        invariant forall k {:trigger brch[k]} :: ibrch <= k < jbrch ==> brch[k] == b[k + 1]
        invariant forall k {:trigger brch[k]} :: jbrch <= k < |b| ==> brch[k] == b[k]
      {
        brch := brch[jbrch := brch[jbrch + 1]];
        jbrch := jbrch + 1;
      }
      nbrch := nbrch - 1;
    }

    /** Delete Branch `ibrch`. */
    method DelBrch(ibrch: int) returns (status: TableStatus)
      requires Valid()
      modifies this
      ensures Valid() && nextseq == old(nextseq)
      ensures status == if 1 <= ibrch <= old(nbrch) then Ok else IllegalBrchIndex
      ensures status == Ok ==> Branches() == Deleted(old(Branches()), ibrch - 1) && nbrch == old(nbrch) - 1 && !checked
      ensures status != Ok ==> brch == old(brch) && nbrch == old(nbrch) && checked == old(checked)
    {
      hide Named, Allowed, Deleted;
      if ibrch < 1 || ibrch > nbrch { return IllegalBrchIndex; }
      checked := false;
      NamedAfterDelete(Branches(), ibrch - 1, nextseq);
      CloseGap(ibrch);
      GapIsClosed(old(brch), brch, nbrch, ibrch);
      return Ok;
    }

    /** Is `name` free, and open to users? */
    method NameIsFree(name: string) returns (free: bool)
      requires Valid()
      ensures free <==> nbrch <= 0 || (!IsReserved(name) && forall e :: e in Branches() ==> e.name != name)
    {
      var jbrch := 1;
      while jbrch <= nbrch
        invariant 1 <= jbrch && (nbrch >= 0 ==> jbrch <= nbrch + 1)
        invariant jbrch > 1 ==> !IsReserved(name)
        invariant forall k :: 1 <= k < jbrch && k <= nbrch ==> brch[k].name != name
      {
        if name == brch[jbrch].name {
          assert brch[jbrch] == Branches()[jbrch - 1];
          return false;
        }
        if IsReserved(name) { return false; }
        jbrch := jbrch + 1;
      }
      return true;
    }

    /** Give Branch `ibrch` a name. */
    method SetName(ibrch: int, name: string) returns (status: TableStatus)
      requires Valid()
      modifies this`brch
      ensures Valid()
      ensures status ==
              if ibrch < 1 || ibrch > nbrch then IllegalBrchIndex
              else if "Brch_" <= name || exists e :: e in old(Branches()) && e.name == name then NameNotUnique
              else Ok
      ensures Branches() ==
              if status == Ok then old(Branches())[ibrch - 1 := old(Branches())[ibrch - 1].(name := name)] else old(Branches())
    {
      hide Named, Allowed;
      if ibrch < 1 || ibrch > nbrch { return IllegalBrchIndex; }
      var free := NameIsFree(name);
      if !free { return NameNotUnique; }
      ghost var was := Branches();
      ChangedInside(brch, nbrch, ibrch, brch[ibrch].(name := name));
      brch := brch[ibrch := brch[ibrch].(name := name)];
      Renamed(was, ibrch - 1, name, nextseq);
      return Ok;
    }
  }

  lemma Renamed(l: seq<Entry>, i: nat, name: string, next: nat)
    requires Named(l, next) && i < |l| && !IsReserved(name) && forall e :: e in l ==> e.name != name
    ensures Named(l[i := l[i].(name := name)], next)
  {
    hide IsReserved;
  }

  lemma OneFewer(l: seq<Entry>, brch: seq<Entry>, n: int, next: nat)
    requires Named(l, next) && n < |brch|
    requires n >= 0 ==> n + 1 < |brch| && l == brch[1..n + 2]
    ensures n >= 0 ==> brch[1..n + 1] == l[..|l| - 1] && Named(brch[1..n + 1], next)
    ensures Named([], next)
  {
    hide Allowed;
    if n >= 0 {
      assert brch[1..n + 1] == l[..|l| - 1];
      NamedWithoutLast(l, next);
    }
  }

  /** What adding a Branch comes to. An existing Parameter lets a missing argument stand
      as an error; creating one hides it. */
  function NewStatus(nbrch: int, iafter: int, typ: Option<Type>, args: seq<Option<string>>, pmtr: PmtrStep): TableStatus
    requires |args| == 9
  {
    if iafter < 0 || iafter > nbrch then IllegalBrchIndex
    else if typ.None? then IllegalType
    else if typ.value in {Set, PatBeg} && pmtr.Created? then Ok
    else if typ.value in {Set, PatBeg} && pmtr.Refused? then IllegalPmtr
    else if AllGiven(typ.value, args) then Ok
    else IllegalNarg
  }

  /** A call that fails for its arguments leaves the table as it was just when the Branch
      was to be the last one; elsewhere the last Branch is lost and the new one stays. */
  lemma FailureKeepsTableIff(l: seq<Entry>, iafter: nat, next: nat, t: Type, args: seq<Option<string>>)
    requires Named(l, next) && iafter <= |l| && |args| == 9
    ensures var r := Inserted(l, iafter, NewEntry(next, t, args)); r[..|r| - 1] == l <==> iafter == |l|
  {
    hide DefaultName, Allowed, Kept;
    var r := Inserted(l, iafter, NewEntry(next, t, args));
    if iafter < |l| {
      NewNameIsNew(l[iafter].name, next);
      assert r[..|r| - 1][iafter] != l[iafter];
    }
  }

  /** A Branch whose arguments can be given again. */
  predicate Complete(e: Entry) {
    |e.args| == 9 && AllGiven(e.brch.typ, e.args) && Kept(e.brch.typ, e.args) == e.args
  }

  /** Branches that were added without an error can be copied. */
  lemma NewEntryIsComplete(next: nat, t: Type, args: seq<Option<string>>)
    requires |args| == 9 && AllGiven(t, args)
    ensures Complete(NewEntry(next, t, args))
  {
    var k := Kept(t, args);
    assert Narg(t, k) == Narg(t, args) by {
      if t.UdPrim? {
        var n := Narg(t, args);
        assert forall i :: 0 <= i < n ==> k[i] == args[i];
        assert forall i :: n <= i < 9 ==> k[i] == None;
      }
    }
  }

  /** What a Branch is in a copy. */
  predicate CopiedFrom(a: Entry, b: Entry) {
    |b.args| == 9 && a.name == b.name && a.brch.typ == b.brch.typ && a.args == Kept(b.brch.typ, b.args)
  }

  lemma AllowedLater(name: string, next: nat, later: nat)
    requires Allowed(name, next) && next <= later
    ensures Allowed(name, later)
  {
    hide DefaultName, IsReserved;
  }

  /** A copied name takes the place of the number that the new Branch got. */
  lemma NamedAsCopied(l: seq<Entry>, next: nat, c: seq<Entry>, k: nat, later: nat)
    requires Named(l, next) && Named(c, later) && next <= later && |c| == k + 1 <= |l|
    requires forall i :: 0 <= i < k ==> c[i].name == l[i].name
    ensures Named(c[k := c[k].(name := l[k].name)], later)
  {
    hide Allowed;
    AllowedLater(l[k].name, next, later);
  }

  /** The first `k` Branches have been copied. */
  ghost predicate CopiedUpTo(c: seq<Entry>, l: seq<Entry>, k: nat) {
    |c| == k <= |l| && forall i :: 0 <= i < k ==> CopiedFrom(c[i], l[i])
  }

  lemma CopiedOneMore(c: seq<Entry>, l: seq<Entry>, k: nat, x: Entry)
    requires CopiedUpTo(c, l, k) && k < |l| && CopiedFrom(x, l[k])
    ensures CopiedUpTo(c + [x], l, k + 1)
  {
    hide CopiedFrom;
  }

  lemma InsertedLast(l: seq<Entry>, e: Entry)
    ensures Inserted(l, |l|, e) == l + [e] && |l + [e]| == |l| + 1 && (l + [e])[|l|] == e
  {
  }

  /** An entry changed in place, behind the unused one. */
  lemma ChangedInside(brch: seq<Entry>, n: nat, k: nat, x: Entry)
    requires 1 <= k <= n < |brch|
    ensures brch[k := x][1..n + 1] == brch[1..n + 1][k - 1 := x]
  {
  }

  lemma LastChanged(l: seq<Entry>, e: Entry, x: Entry)
    ensures (l + [e])[|l| := x] == l + [x]
  {
  }

  lemma CopiedNames(c: seq<Entry>, l: seq<Entry>, k: nat)
    requires CopiedUpTo(c, l, k)
    ensures forall i :: 0 <= i < k ==> c[i].name == l[i].name
  {
    hide Kept;
  }

  lemma EntryIsCopied(seqnum: nat, e: Entry)
    requires |e.args| == 9
    ensures CopiedFrom(NewEntry(seqnum, e.brch.typ, e.args).(name := e.name), e)
  {
  }

  lemma StatusOfCopy(n: nat, e: Entry)
    requires |e.args| == 9
    ensures NewStatus(n, n, Some(e.brch.typ), e.args, Exists) == if AllGiven(e.brch.typ, e.args) then Ok else IllegalNarg
  {
  }

  /** Copy Branch `ibrch`, but for its activity and links. */
  method CopyBrch(src: Table, t: Table, ibrch: nat) returns (status: TableStatus)
    requires src.Valid() && t.Valid() && src != t && 1 <= ibrch <= src.nbrch && t.nbrch == ibrch - 1
    requires t.nextseq >= src.nextseq
    requires CopiedUpTo(t.Branches(), src.Branches(), ibrch - 1)
    requires var e := src.Branches()[ibrch - 1]; e.brch.typ in {Set, PatBeg} ==> e.args != [] && e.args[0].Some?
    modifies t
    ensures t.Valid()
    ensures var e := src.Branches()[ibrch - 1];
            && status == (if AllGiven(e.brch.typ, e.args) then Ok else IllegalNarg)
            && (status == Ok ==>
                  t.nbrch == ibrch && t.nextseq == old(t.nextseq) + 1 && CopiedUpTo(t.Branches(), src.Branches(), ibrch))
  {
    hide Named, Allowed, AllGiven, Kept, DefaultName, IsReserved, CopiedUpTo, Inserted, NewEntry, NewStatus, CopiedFrom;
    ghost var l, was := src.Branches(), t.Branches();
    var e := src.brch[ibrch];
    assert e == l[ibrch - 1];
    NamedArgs(l, src.nextseq);
    CopiedNames(was, l, ibrch - 1);
    ghost var x := NewEntry(t.nextseq, e.brch.typ, e.args);
    EntryIsCopied(t.nextseq, e);
    StatusOfCopy(t.nbrch, e);
    InsertedLast(was, x);
    status := t.NewBrch(t.nbrch, Some(e.brch.typ), e.args, Exists);
    if status != Ok { return; }
    ghost var c := t.Branches();
    assert c == was + [x] && t.brch[ibrch] == c[ibrch - 1];
    NamedAsCopied(l, src.nextseq, c, ibrch - 1, t.nextseq);
    ChangedInside(t.brch, ibrch, ibrch, x.(name := e.name));
    LastChanged(was, x, x.(name := e.name));
    CopiedOneMore(was, l, ibrch - 1, x.(name := e.name));
    t.brch := t.brch[ibrch := t.brch[ibrch].(name := e.name)];
  }

  /** Copy activities and links. */
  method CopyLinks(src: Table, t: Table)
    requires src.Valid() && t.Valid() && src != t && t.nbrch == src.nbrch >= 0
    requires CopiedUpTo(t.Branches(), src.Branches(), src.nbrch)
    modifies t`brch
    ensures t.Valid() && |t.Branches()| == src.nbrch
    ensures forall k :: 0 <= k < src.nbrch ==>
              CopiedFrom(t.Branches()[k], src.Branches()[k]) && t.Branches()[k].brch == src.Branches()[k].brch
  {
    hide Named, Allowed, Kept;
    ghost var l, c := src.Branches(), t.Branches();
    var ibrch := 1;
    while ibrch <= src.nbrch
      invariant 1 <= ibrch <= src.nbrch + 1 && t.nbrch == src.nbrch < |t.brch| == |old(t.brch)|
      invariant forall k {:trigger t.brch[k]} :: 1 <= k <= src.nbrch ==>
                  t.brch[k] == if k < ibrch then old(t.brch)[k].(brch := src.brch[k].brch) else old(t.brch)[k]
    {
      t.brch := t.brch[ibrch := t.brch[ibrch].(brch := src.brch[ibrch].brch)];
      ibrch := ibrch + 1;
    }
    forall k | 0 <= k < src.nbrch
      ensures t.Branches()[k] == c[k].(brch := l[k].brch)
    {
      assert t.Branches()[k] == t.brch[k + 1];
    }
    NamedAlike(c, t.Branches(), t.nextseq);
  }

  lemma NamedAlike(c: seq<Entry>, c': seq<Entry>, next: nat)
    requires Named(c, next) && |c'| == |c|
    requires forall k :: 0 <= k < |c| ==> c'[k].name == c[k].name && c'[k].args == c[k].args
    ensures Named(c', next)
  {
    hide Allowed;
  }

  /** No argument is missing. */
  predicate NoneMissing(l: seq<Entry>)
    requires forall i :: 0 <= i < |l| ==> |l[i].args| == 9
  {
    forall i :: 0 <= i < |l| ==> AllGiven(l[i].brch.typ, l[i].args)
  }

  /** Copy a model: its Branches with their names, activities and links, under numbers
      that are still free in the copy. */
  method Copy(src: Table) returns (status: TableStatus, t: Table)
    requires src.Valid() && src.nbrch >= 0
    requires forall e :: e in src.Branches() && e.brch.typ in {Set, PatBeg} ==> e.args != [] && e.args[0].Some?
    ensures fresh(t) && t.Valid()
    ensures status == if NoneMissing(src.Branches()) then Ok else IllegalNarg
    ensures status == Ok && (forall e :: e in src.Branches() ==> Complete(e)) ==> t.Branches() == src.Branches()
    ensures status == Ok ==> t.nbrch == src.nbrch && t.nextseq == src.nextseq + src.nbrch
  {
    hide Named, Allowed, AllGiven, Kept, DefaultName, IsReserved, CopiedFrom, Complete, CopiedUpTo;
    ghost var l := src.Branches();
    t := new Table();
    t.nextseq := src.nextseq;
    NothingNamed(src.nextseq);
    NamedArgs(l, src.nextseq);
    NothingCopied(l);
    var ibrch := 1;
    while ibrch <= src.nbrch
      invariant 1 <= ibrch <= src.nbrch + 1 && fresh(t) && t.nbrch == ibrch - 1 && t.Valid()
      invariant t.nextseq == src.nextseq + ibrch - 1
      invariant unchanged(src)
      invariant forall k :: 0 <= k < ibrch - 1 ==> AllGiven(l[k].brch.typ, l[k].args)
      invariant CopiedUpTo(t.Branches(), l, ibrch - 1)
    {
      assert l[ibrch - 1] == src.brch[ibrch];
      status := CopyBrch(src, t, ibrch);
      if status != Ok { return; }
      ibrch := ibrch + 1;
    }
    CopyLinks(src, t);
    status := Ok;
    CopyIsExact(t.Branches(), l);
  }

  lemma NothingCopied(l: seq<Entry>)
    ensures CopiedUpTo([], l, 0)
  {
  }

  lemma CopyIsExact(c: seq<Entry>, l: seq<Entry>)
    requires |c| == |l| && forall k :: 0 <= k < |l| ==> CopiedFrom(c[k], l[k]) && c[k].brch == l[k].brch
    ensures (forall e :: e in l ==> Complete(e)) ==> c == l
  {
    hide AllGiven, Kept;
    if forall e :: e in l ==> Complete(e) {
      forall k | 0 <= k < |l| ensures c[k] == l[k] {
        assert Complete(l[k]);
      }
    }
  }

  lemma NothingNamed(next: nat)
    ensures Named([], next)
  {
  }
}

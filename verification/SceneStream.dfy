/** Reading queued scene messages: a cursor that moves through the bytes of each message,
    record by record. */
module SceneStream {
  import opened Basics
  import opened SceneRecords

  /* ---- the words of a record ---- */

  lemma HeadIsRead(m: seq<Byte>, at: nat, opcode: nat, stripe: nat)
    requires opcode < 128 && stripe < 0x100_0000 && At(m, at, Head(opcode, stripe))
    ensures at + 4 <= |m| && WordAt(m, at) / 0x100_0000 == opcode && WordAt(m, at) % 0x100_0000 == stripe
  {
    hide At, Word, WordAt;
    AtIsInside(m, at, Head(opcode, stripe));
    WordIsRead(m, at, opcode * 0x100_0000 + stripe);
  }

  lemma AtIsInside(m: seq<Byte>, at: nat, piece: seq<Byte>)
    requires At(m, at, piece)
    ensures at + |piece| <= |m| && m[at..at + |piece|] == piece
  {
  }

  /** The number of bytes of the name, and its bytes up to the first zero. */
  function NameLen(m: seq<Byte>, start: nat): nat
    requires start + 8 <= |m|
  {
    WordAt(m, start + 4) % 0x1_0000
  }

  function NameAt(m: seq<Byte>, start: nat): seq<Byte>
    requires start + 8 <= |m| && start + 8 + NameLen(m, start) <= |m|
  {
    ToString(m[start + 8..start + 8 + NameLen(m, start)])
  }

  function TypeAt(m: seq<Byte>, start: nat): nat
    requires start + 8 <= |m|
  {
    WordAt(m, start + 4) / 0x100_0000
  }

  function FlagsAt(m: seq<Byte>, start: nat): nat
    requires start + 8 <= |m|
  {
    WordAt(m, start + 4) / 0x1_0000 % 256
  }

  lemma FieldsOf(gtype: nat, vflags: nat, nameLen: nat, w: nat)
    requires gtype < 128 && vflags < 256 && nameLen < 0x1_0000 && w == gtype * 0x100_0000 + vflags * 0x1_0000 + nameLen
    ensures w / 0x100_0000 == gtype && w / 0x1_0000 % 256 == vflags && w % 0x1_0000 == nameLen
  {
    assert w == 0x1_0000 * (gtype * 256 + vflags) + nameLen;
    assert w / 0x1_0000 == gtype * 256 + vflags;
  }

  /** All of a record up to its name reads back. */
  lemma OpeningIsRead(m: seq<Byte>, at: nat, opcode: nat, stripe: nat, gtype: nat, vflags: nat, name: seq<Byte>,
                      rest: seq<Byte>)
    requires opcode < 128 && stripe < 0x100_0000 && gtype < 128 && vflags < 256 && IsName(name)
    requires At(m, at, Opening(opcode, stripe, gtype, vflags, name) + rest)
    ensures at + 8 + |Padded(name)| + |rest| <= |m|
    ensures WordAt(m, at) / 0x100_0000 == opcode && WordAt(m, at) % 0x100_0000 == stripe
    ensures TypeAt(m, at) == gtype && FlagsAt(m, at) == vflags && NameLen(m, at) == |Padded(name)|
    ensures NameAt(m, at) == name
    ensures At(m, at + 8 + |Padded(name)|, rest)
  {
    hide At, Head, Head2, WordAt, Padded, IsName, ToString;
    NameIsRead(name);
    var h, h2, p := Head(opcode, stripe), Head2(gtype, vflags, |Padded(name)|), Padded(name);
    AtIsInside(m, at, Opening(opcode, stripe, gtype, vflags, name) + rest);
    AtBoth(m, at, h + h2 + p, rest);
    AtBoth(m, at, h + h2, p);
    AtBoth(m, at, h, h2);
    HeadIsRead(m, at, opcode, stripe);
    Head2IsRead(m, at + 4, gtype, vflags, |p|);
    AtIsInside(m, at + 8, p);
  }

  lemma Head2IsRead(m: seq<Byte>, at: nat, gtype: nat, vflags: nat, nameLen: nat)
    requires gtype < 128 && vflags < 256 && nameLen < 0x1_0000 && At(m, at, Head2(gtype, vflags, nameLen))
    ensures at + 4 <= |m|
    ensures var w := WordAt(m, at); w / 0x100_0000 == gtype && w / 0x1_0000 % 256 == vflags && w % 0x1_0000 == nameLen
  {
    hide At, Word, WordAt;
    AtIsInside(m, at, Head2(gtype, vflags, nameLen));
    WordIsRead(m, at, gtype * 0x100_0000 + vflags * 0x1_0000 + nameLen);
    FieldsOf(gtype, vflags, nameLen, WordAt(m, at));
  }

  /* ---- arrays ---- */

  lemma ElementsFit(n: nat, unit: nat)
    requires IsUnit(unit) && n % unit == 0
    ensures n / unit * unit == n
    ensures unit == 4 ==> n % 4 == 0
    ensures unit == 2 ==> n % 4 == if n / unit % 2 == 0 then 0 else 2
    ensures unit == 1 ==> n % 4 == n / unit % 4
  {
  }

  /** Read an array: its elements, and how many bytes it took, with what fills its last word. */
  method ReadArray(m: seq<Byte>, at: nat, unit: nat, ghost d: seq<Byte>) returns (data: seq<Byte>, used: nat)
    requires IsUnit(unit) && |d| < 0x8000_0000 && |d| % unit == 0 && At(m, at, Array(d, unit))
    ensures data == d && used == |Array(d, unit)|
  {
    hide At, Word, WordAt, Padded;
    ElementsFit(|d|, unit);
    AtIsInside(m, at, Array(d, unit));
    AtBoth(m, at, Word(|d| / unit), Padded(d));
    WordIsRead(m, at, |d| / unit);
    AtIsInside(m, at + 4, Padded(d));
    PaddedBegins(m, at + 4, d);
    var size := WordAt(m, at);
    var bytes := size * unit;
    data := m[at + 4..at + 4 + bytes];
    used := 4 + bytes;
    PaddedLength(d);
    if unit == 2 && size % 2 != 0 { used := used + 2; }
    if unit == 1 && size % 4 != 0 { used := used + 4 - size % 4; }
  }

  lemma PaddedBegins(m: seq<Byte>, at: nat, d: seq<Byte>)
    requires At(m, at, Padded(d))
    ensures at + |d| <= |m| && m[at..at + |d|] == d
  {
    AtBoth(m, at, d, Zeros((4 - |d| % 4) % 4));
  }

  lemma PaddedLength(d: seq<Byte>)
    ensures |Padded(d)| == |d| + if |d| % 4 == 0 then 0 else 4 - |d| % 4
  {
  }

  /** Read an array that is there if its flag is set. */
  method ReadOptional(m: seq<Byte>, at: nat, isThere: bool, unit: nat, ghost d: Option<seq<Byte>>)
    returns (data: Option<seq<Byte>>, used: nat)
    requires IsUnit(unit) && IsArray(d, unit) && isThere == d.Some? && At(m, at, Optional(d, unit))
    ensures data == d && used == |Optional(d, unit)|
  {
    if isThere {
      var elements;
      elements, used := ReadArray(m, at, unit, d.value);
      data := Some(elements);
    } else {
      data, used := None, 0;
    }
  }

  lemma BitsOfFlags(r: Record)
    requires r.NewStripe?
    ensures var f := VFlags(r);
            && (f % 2 != 0 <==> r.vertices.Some?) && (f / 2 % 2 != 0 <==> r.indices.Some?)
            && (f / 4 % 2 != 0 <==> r.colors.Some?) && (f / 8 % 2 != 0 <==> r.normals.Some?)
  {
  }

  lemma BodiesAreThere(m: seq<Byte>, at: nat, r: Record)
    requires r.NewStripe? && WellFormed(r) && At(m, at, Bodies(r))
    ensures var a, b, c, d := Optional(r.vertices, 4), Optional(r.indices, 2), Optional(r.colors, 1), Optional(r.normals, 4);
            && At(m, at, a) && At(m, at + |a|, b) && At(m, at + |a| + |b|, c) && At(m, at + |a| + |b| + |c|, d)
            && |Bodies(r)| == |a| + |b| + |c| + |d|
  {
    hide At, Optional;
    var a, b, c, d := Optional(r.vertices, 4), Optional(r.indices, 2), Optional(r.colors, 1), Optional(r.normals, 4);
    AtBoth(m, at, a, b + (c + d));
    AtBoth(m, at + |a|, b, c + d);
    AtBoth(m, at + |a| + |b|, c, d);
  }

  /* ---- records ---- */

  method ReadInit(m: seq<Byte>, start: nat, ghost r: Record) returns (d: Record, next: nat)
    requires WellFormed(r) && r.Init? && At(m, start, Encode(r))
    ensures d == r && next == start + |Encode(r)|
  {
    AtBoth(m, start, Head(8, 0), r.view);
    d, next := Init(m[start + 4..start + 52]), start + 52;
  }

  method ReadNewPrim(m: seq<Byte>, start: nat, ghost r: Record) returns (d: Record, next: nat)
    requires WellFormed(r) && r.NewPrim? && At(m, start, Encode(r))
    ensures d == r && next == start + |Encode(r)|
  {
    hide At, Padded, Opening, WordAt, NameLen, NameAt, TypeAt, FlagsAt;
    OpeningIsRead(m, start, 1, r.stripe, r.gtype, 0, r.name, Tail(r));
    var stripe, gtype, nameLen := WordAt(m, start) % 0x100_0000, TypeAt(m, start), NameLen(m, start);
    var numBytes := nameLen + 12;
    var size := 4;
    if gtype == 1 { size := 14; }
    if gtype == 2 { size := 17; }
    AtBoth(m, start + 8 + nameLen, r.attrs, r.floats);
    AtIsInside(m, start + 8 + nameLen, r.attrs);
    AtIsInside(m, start + numBytes, r.floats);
    var floats := m[start + numBytes..start + numBytes + size * 4];
    d := NewPrim(stripe, gtype, NameAt(m, start), m[start + 8 + nameLen..start + 12 + nameLen], floats);
    next := start + numBytes + size * 4;
  }

  method ReadDeletePrim(m: seq<Byte>, start: nat, ghost r: Record) returns (d: Record, next: nat)
    requires WellFormed(r) && r.DeletePrim? && At(m, start, Encode(r))
    ensures d == r && next == start + |Encode(r)|
  {
    hide At, Padded, Opening, WordAt, NameLen, NameAt, TypeAt, FlagsAt;
    OpeningIsRead(m, start, 2, 0, 0, 0, r.name, Tail(r));
    var nameLen := NameLen(m, start);
    EmptyName(r.name);
    d := DeletePrim(if nameLen == 0 then [] else NameAt(m, start));
    next := start + 8 + nameLen;
  }

  lemma EmptyName(name: seq<Byte>)
    ensures |Padded(name)| == 0 <==> name == []
  {
  }

  method ReadNewStripe(m: seq<Byte>, start: nat, ghost r: Record) returns (d: Record, next: nat)
    requires WellFormed(r) && r.NewStripe? && At(m, start, Encode(r))
    ensures d == r && next == start + |Encode(r)|
  {
    hide At, Padded, Opening, WordAt, NameLen, NameAt, TypeAt, FlagsAt, Optional, VFlags, Bodies;
    OpeningIsRead(m, start, 3, r.stripe, r.gtype, VFlags(r), r.name, Tail(r));
    var stripe, gtype := WordAt(m, start) % 0x100_0000, TypeAt(m, start);
    var vflags, nameLen := FlagsAt(m, start), NameLen(m, start);
    BitsOfFlags(r);
    BodiesAreThere(m, start + 8 + nameLen, r);
    var numBytes := nameLen + 8;
    var vertices, v := ReadOptional(m, start + numBytes, vflags % 2 != 0, 4, r.vertices);
    numBytes := numBytes + v;
    var indices, i := ReadOptional(m, start + numBytes, vflags / 2 % 2 != 0, 2, r.indices);
    numBytes := numBytes + i;
    var colors, c := ReadOptional(m, start + numBytes, vflags / 4 % 2 != 0, 1, r.colors);
    numBytes := numBytes + c;
    var normals, n := ReadOptional(m, start + numBytes, vflags / 8 % 2 != 0, 4, r.normals);
    numBytes := numBytes + n;
    d := NewStripe(stripe, gtype, NameAt(m, start), vertices, indices, colors, normals);
    next := start + numBytes;
  }

  lemma TypeOfFlag(vtype: nat)
    requires vtype < 4
    ensures var f := FlagOf(vtype);
            vtype == if f / 8 % 2 != 0 then 3 else if f / 4 % 2 != 0 then 2 else if f / 2 % 2 != 0 then 1 else 0
  {
  }

  method ReadEditPrim(m: seq<Byte>, start: nat, ghost r: Record) returns (d: Record, next: nat)
    requires WellFormed(r) && r.EditPrim? && At(m, start, Encode(r))
    ensures d == r && next == start + |Encode(r)|
  {
    hide At, Padded, Opening, WordAt, NameLen, NameAt, TypeAt, FlagsAt, FlagOf, Array;
    OpeningIsRead(m, start, 4, r.stripe, r.gtype, FlagOf(r.vtype), r.name, Tail(r));
    var stripe, gtype := WordAt(m, start) % 0x100_0000, TypeAt(m, start);
    var vflags, nameLen := FlagsAt(m, start), NameLen(m, start);
    TypeOfFlag(r.vtype);
    var vtype := 0;
    if vflags / 2 % 2 != 0 { vtype := 1; }
    if vflags / 4 % 2 != 0 { vtype := 2; }
    if vflags / 8 % 2 != 0 { vtype := 3; }
    var size := 4;
    if vtype == 1 { size := 2; }
    if vtype == 2 { size := 1; }
    var data, used := ReadArray(m, start + 8 + nameLen, size, r.data);
    d := EditPrim(stripe, gtype, NameAt(m, start), vtype, data);
    next := start + 8 + nameLen + used;
  }

  method ReadResetPrim(m: seq<Byte>, start: nat, ghost r: Record) returns (d: Record, next: nat)
    requires WellFormed(r) && r.ResetPrim? && At(m, start, Encode(r))
    ensures d == r && next == start + |Encode(r)|
  {
    hide At, Padded, Opening, WordAt, NameLen, NameAt, TypeAt, FlagsAt;
    OpeningIsRead(m, start, 5, 0, 0, 0, r.name, Tail(r));
    var nameLen := NameLen(m, start);
    AtIsInside(m, start + 8 + nameLen, r.attrs);
    d := ResetPrim(NameAt(m, start), m[start + 8 + nameLen..start + 12 + nameLen]);
    next := start + 12 + nameLen;
  }

  method ReadDeleteStripe(m: seq<Byte>, start: nat, ghost r: Record) returns (d: Record, next: nat)
    requires WellFormed(r) && r.DeleteStripe? && At(m, start, Encode(r))
    ensures d == r && next == start + |Encode(r)|
  {
    hide At, Padded, Opening, WordAt, NameLen, NameAt, TypeAt, FlagsAt;
    OpeningIsRead(m, start, 6, r.stripe, r.gtype, 0, r.name, Tail(r));
    d := DeleteStripe(WordAt(m, start) % 0x100_0000, TypeAt(m, start), NameAt(m, start));
    next := start + 8 + NameLen(m, start);
  }

  function OpcodeOf(r: Record): nat {
    match r
    case Init(_) => 8
    case NewPrim(_, _, _, _, _) => 1
    case DeletePrim(_) => 2
    case NewStripe(_, _, _, _, _, _, _) => 3
    case EditPrim(_, _, _, _, _) => 4
    case ResetPrim(_, _) => 5
    case DeleteStripe(_, _, _) => 6
    case MoveOn(opcode) => opcode
  }

  lemma OpcodeIsRead(m: seq<Byte>, at: nat, r: Record)
    requires WellFormed(r) && At(m, at, Encode(r))
    ensures at + 4 <= |m| && WordAt(m, at) / 0x100_0000 == OpcodeOf(r)
    ensures r.MoveOn? ==> OpcodeOf(r) == 0 || OpcodeOf(r) == 7
  {
    hide At, Padded, Opening, WordAt, Head, Tail, NameLen, NameAt, TypeAt, FlagsAt;
    match r
    case Init(view) => AtBoth(m, at, Head(8, 0), view); HeadIsRead(m, at, 8, 0);
    case NewPrim(stripe, gtype, name, _, _) => OpeningIsRead(m, at, 1, stripe, gtype, 0, name, Tail(r));
    case DeletePrim(name) => OpeningIsRead(m, at, 2, 0, 0, 0, name, Tail(r));
    case NewStripe(stripe, gtype, name, _, _, _, _) => OpeningIsRead(m, at, 3, stripe, gtype, VFlags(r), name, Tail(r));
    case EditPrim(stripe, gtype, name, vtype, _) => OpeningIsRead(m, at, 4, stripe, gtype, FlagOf(vtype), name, Tail(r));
    case ResetPrim(name, _) => OpeningIsRead(m, at, 5, 0, 0, 0, name, Tail(r));
    case DeleteStripe(stripe, gtype, name) => OpeningIsRead(m, at, 6, stripe, gtype, 0, name, Tail(r));
    case MoveOn(opcode) => HeadIsRead(m, at, opcode, 0);
  }

  /** Read the record at the cursor, and move the cursor past it. */
  method ReadRecord(m: seq<Byte>, start: nat, ghost r: Record) returns (d: Record, next: nat)
    requires WellFormed(r) && At(m, start, Encode(r))
    ensures d == r && next == start + |Encode(r)|
  {
    hide At, Encode, WordAt, WellFormed;
    OpcodeIsRead(m, start, r);
    var opcode := WordAt(m, start) / 0x100_0000;
    match opcode {
      case 8 => d, next := ReadInit(m, start, r);
      case 1 => d, next := ReadNewPrim(m, start, r);
      case 2 => d, next := ReadDeletePrim(m, start, r);
      case 3 => d, next := ReadNewStripe(m, start, r);
      case 4 => d, next := ReadEditPrim(m, start, r);
      case 5 => d, next := ReadResetPrim(m, start, r);
      case 6 => d, next := ReadDeleteStripe(m, start, r);
      case _ =>
        MovingOn(r);
        d, next := MoveOn(opcode), start + 4;
    }
  }

  lemma MovingOn(r: Record)
    requires WellFormed(r) && r.MoveOn?
    ensures |Encode(r)| == 4
  {
  }

  /* ---- messages ---- */

  /** The four bytes that the newest message must end in. */
  predicate EndsBatch(m: seq<Byte>) {
    |m| >= 4 && m[|m| - 4..] == [0, 0, 0, 7]
  }

  function Flatten(qs: seq<seq<Record>>): seq<Record> {
    if qs == [] then [] else Flatten(qs[..|qs| - 1]) + qs[|qs| - 1]
  }

  ghost predicate Spells(m: seq<Byte>, rs: seq<Record>) {
    AllWellFormed(rs) && m == EncodeAll(rs)
  }

  class Client {
    var messageQ: seq<seq<Byte>>
    var applied: seq<Record>
    var sceneUpd: bool

    /** Apply the records of one message, in order, and stop at its very end. */
    method ApplyMessage(m: seq<Byte>, ghost rs: seq<Record>) returns (start: nat)
      requires Spells(m, rs)
      modifies this`applied
      ensures applied == old(applied) + rs && start == |m|
    {
      hide At, Encode, WellFormed, EncodeAll;
      start := 0;
      ghost var k: nat := 0;
      assert rs[0..] == rs;
      AtStart(m, EncodeAll(rs));
      while start < |m|
        invariant k <= |rs| && start % 4 == 0
        invariant AllWellFormed(rs[k..]) && start + |EncodeAll(rs[k..])| == |m| && At(m, start, EncodeAll(rs[k..]))
        invariant applied == old(applied) + rs[..k]
        decreases |m| - start
      {
        NotYetOver(rs[k..]);
        NextRecord(m, start, rs[k..]);
        assert rs[k..][0] == rs[k] && rs[k..][1..] == rs[k + 1..];
        var d, next := ReadRecord(m, start, rs[k]);
        applied := applied + [d];
        start := next;
        k := k + 1;
      }
      NowOver(rs[k..]);
      assert rs[..|rs|] == rs;
    }

    /** If the newest message ends a batch, apply all queued messages in the order in
        which they came; otherwise leave them queued. */
    method UpdateScene(ghost qs: seq<seq<Record>>)
      requires |qs| == |messageQ| && forall i :: 0 <= i < |qs| ==> Spells(messageQ[i], qs[i])
      modifies this
      ensures old(messageQ) == [] ==> unchanged(this)
      ensures old(messageQ) != [] ==> sceneUpd
      ensures old(messageQ) != [] ==>
                if EndsBatch(old(messageQ)[|qs| - 1]) then messageQ == [] && applied == old(applied) + Flatten(qs)
                else messageQ == old(messageQ) && applied == old(applied)
    {
      hide Spells;
      if |messageQ| == 0 { return; }
      sceneUpd := true;
      var message := messageQ[|messageQ| - 1];
      if EndsBatch(message) {
        var messages := messageQ;
        messageQ := [];
        var i := 0;
        while i < |messages|
          invariant 0 <= i <= |messages| == |qs| && messageQ == [] && sceneUpd
          invariant applied == old(applied) + Flatten(qs[..i])
        {
          var end := ApplyMessage(messages[i], qs[i]);
          assert qs[..i + 1][..i] == qs[..i];
          i := i + 1;
        }
        assert qs[..|qs|] == qs;
      }
    }
  }

  lemma AtStart(m: seq<Byte>, s: seq<Byte>)
    requires m == s
    ensures At(m, 0, s)
  {
  }

  lemma NotYetOver(rs: seq<Record>)
    requires AllWellFormed(rs) && |EncodeAll(rs)| > 0
    ensures rs != []
  {
  }

  lemma NowOver(rs: seq<Record>)
    requires AllWellFormed(rs) && |EncodeAll(rs)| == 0
    ensures rs == []
  {
    if rs != [] { RecordIsAligned(rs[0]); }
  }

  /** The first of the records that are left is at the cursor, and ends at a word. */
  lemma NextRecord(m: seq<Byte>, start: nat, rs: seq<Record>)
    requires AllWellFormed(rs) && rs != [] && At(m, start, EncodeAll(rs))
    ensures WellFormed(rs[0]) && At(m, start, Encode(rs[0])) && |Encode(rs[0])| >= 4 && |Encode(rs[0])| % 4 == 0
    ensures AllWellFormed(rs[1..]) && At(m, start + |Encode(rs[0])|, EncodeAll(rs[1..]))
    ensures |EncodeAll(rs)| == |Encode(rs[0])| + |EncodeAll(rs[1..])|
  {
    hide At, Encode, WellFormed;
    RecordIsAligned(rs[0]);
    AtBoth(m, start, Encode(rs[0]), EncodeAll(rs[1..]));
  }

  /* ---- the end of a batch ---- */

  lemma {:induction false} LastRecord(rs: seq<Record>)
    requires AllWellFormed(rs) && rs != []
    ensures EncodeAll(rs) == EncodeAll(rs[..|rs| - 1]) + Encode(rs[|rs| - 1])
  {
    hide Encode, WellFormed;
    if |rs| == 1 {
      assert rs[1..] == [] && rs[..0] == [];
    } else {
      var t := rs[1..];
      LastRecord(t);
      assert t[..|t| - 1] == rs[..|rs| - 1][1..];
      assert rs[..|rs| - 1][0] == rs[0];
    }
  }

  /** A message ends a batch if and only if the last word of its last record, whatever
      that word belongs to, is that of opcode 7. */
  lemma EndsBatchIff(m: seq<Byte>, rs: seq<Record>)
    requires Spells(m, rs) && rs != []
    ensures |Encode(rs[|rs| - 1])| >= 4
    ensures var s := Encode(rs[|rs| - 1]); EndsBatch(m) <==> s[|s| - 4..] == [0, 0, 0, 7]
  {
    hide Encode, WellFormed, EncodeAll;
    var r := rs[|rs| - 1];
    RecordIsAligned(r);
    LastRecord(rs);
    var s := Encode(r);
    assert m[|m| - 4..] == s[|s| - 4..];
  }

  /** A message whose last record has opcode 7 ends a batch. */
  lemma Opcode7EndsBatch(m: seq<Byte>, rs: seq<Record>)
    requires Spells(m, rs) && rs != [] && rs[|rs| - 1] == MoveOn(7)
    ensures EndsBatch(m)
  {
    LastRecord(rs);
    assert Encode(MoveOn(7)) == [0, 0, 0, 7];
  }

  /** So does any other whose last word happens to be the same, like this one, in which
      the last of four floats is tiny. */
  lemma DataCanEndBatch()
    ensures var r := NewPrim(0, 0, [], [0, 0, 0, 0], [0, 0, 0, 0, 0, 0, 0, 0, 0, 0, 0, 0, 0, 0, 0, 7]);
            WellFormed(r) && EndsBatch(EncodeAll([r]))
  {
    var r := NewPrim(0, 0, [], [0, 0, 0, 0], [0, 0, 0, 0, 0, 0, 0, 0, 0, 0, 0, 0, 0, 0, 0, 7]);
    assert [r][1..] == [];
    var s := Encode(r);
    assert s == Opening(1, 0, 0, 0, []) + (r.attrs + r.floats);
    assert s[|s| - 4..] == r.floats[12..];
    assert EncodeAll([r]) == s + EncodeAll([]);
  }
}

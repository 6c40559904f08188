/** The binary messages that describe a scene: the layout of their records, in bytes,
    least significant first. */
module SceneRecords {
  import opened Basics

  type Byte = x: nat | x < 256

  /** What one record says. Numbers in arrays are left as the bytes that they are sent as. */
  datatype Record =
    | Init(view: seq<Byte>)
    | NewPrim(stripe: nat, gtype: nat, name: seq<Byte>, attrs: seq<Byte>, floats: seq<Byte>)
    | DeletePrim(name: seq<Byte>)
    | NewStripe(stripe: nat, gtype: nat, name: seq<Byte>, vertices: Option<seq<Byte>>, indices: Option<seq<Byte>>,
                colors: Option<seq<Byte>>, normals: Option<seq<Byte>>)
    | EditPrim(stripe: nat, gtype: nat, name: seq<Byte>, vtype: nat, data: seq<Byte>)
    | ResetPrim(name: seq<Byte>, attrs: seq<Byte>)
    | DeleteStripe(stripe: nat, gtype: nat, name: seq<Byte>)
    | MoveOn(opcode: nat)

  /* ---- pieces ---- */

  function Zeros(k: nat): (z: seq<Byte>)
    ensures |z| == k && forall i :: 0 <= i < k ==> z[i] == 0
  {
    seq(k, _ => 0)
  }

  /** Bytes, made up to whole words. */
  function Padded(d: seq<Byte>): (p: seq<Byte>)
    ensures |p| % 4 == 0 && |d| <= |p| < |d| + 4 && p[..|d|] == d
  {
    d + Zeros((4 - |d| % 4) % 4)
  }

  /** A whole number in four bytes. */
  function Word(n: nat): (w: seq<Byte>)
    requires n < 0x1_0000_0000
    ensures |w| == 4
  {
    [n % 256, n / 256 % 256, n / 0x1_0000 % 256, n / 0x100_0000]
  }

  /** The first word of a record. */
  function Head(opcode: nat, stripe: nat): (w: seq<Byte>)
    requires opcode < 128 && stripe < 0x100_0000
    ensures |w| == 4
  {
    Word(opcode * 0x100_0000 + stripe)
  }

  /** The second word: the length of the name, flags, and a type. */
  function Head2(gtype: nat, vflags: nat, nameLen: nat): (w: seq<Byte>)
    requires gtype < 128 && vflags < 256 && nameLen < 0x1_0000
    ensures |w| == 4
  {
    Word(gtype * 0x100_0000 + vflags * 0x1_0000 + nameLen)
  }

  predicate IsUnit(unit: nat) { unit == 1 || unit == 2 || unit == 4 }

  /** An array of elements of `unit` bytes, after their number. */
  function Array(d: seq<Byte>, unit: nat): (a: seq<Byte>)
    requires IsUnit(unit) && |d| < 0x8000_0000
    ensures |a| == 4 + |Padded(d)|
  {
    hide Padded, Word;
    Word(|d| / unit) + Padded(d)
  }

  function Optional(d: Option<seq<Byte>>, unit: nat): seq<Byte>
    requires IsUnit(unit) && (d.Some? ==> |d.value| < 0x8000_0000)
  {
    if d.Some? then Array(d.value, unit) else []
  }

  function Flag(d: Option<seq<Byte>>, bit: nat): nat { if d.Some? then bit else 0 }

  /** How many numbers describe a new primitive. */
  function NumFloats(gtype: nat): nat {
    if gtype == 2 then 17 else if gtype == 1 then 14 else 4
  }

  function Unit(vtype: nat): (u: nat)
    ensures IsUnit(u)
  {
    if vtype == 1 then 2 else if vtype == 2 then 1 else 4
  }

  function FlagOf(vtype: nat): (f: nat)
    ensures f < 256
  {
    if vtype == 1 then 2 else if vtype == 2 then 4 else if vtype == 3 then 8 else 1
  }

  /* ---- records ---- */

  predicate IsName(name: seq<Byte>) {
    |name| < 0xFFFC && 0 !in name
  }

  predicate IsArray(d: Option<seq<Byte>>, unit: nat) {
    d.Some? && IsUnit(unit) ==> |d.value| < 0x8000_0000 && |d.value| % unit == 0
  }

  predicate WellFormed(r: Record) {
    match r
    case Init(view) => |view| == 48
    case NewPrim(stripe, gtype, name, attrs, floats) =>
      stripe < 0x100_0000 && gtype < 128 && IsName(name) && |attrs| == 4 && |floats| == 4 * NumFloats(gtype)
    case DeletePrim(name) => IsName(name)
    case NewStripe(stripe, gtype, name, vertices, indices, colors, normals) =>
      && stripe < 0x100_0000 && gtype < 128 && IsName(name)
      && IsArray(vertices, 4) && IsArray(indices, 2) && IsArray(colors, 1) && IsArray(normals, 4)
    case EditPrim(stripe, gtype, name, vtype, data) =>
      && stripe < 0x100_0000 && gtype < 128 && IsName(name) && vtype < 4
      && |data| < 0x8000_0000 && |data| % Unit(vtype) == 0
    case ResetPrim(name, attrs) => IsName(name) && |attrs| == 4
    case DeleteStripe(stripe, gtype, name) => stripe < 0x100_0000 && gtype < 128 && IsName(name)
    case MoveOn(opcode) => opcode == 0 || opcode == 7
  }

  /** A record up to and with its name. */
  function Opening(opcode: nat, stripe: nat, gtype: nat, vflags: nat, name: seq<Byte>): (s: seq<Byte>)
    requires opcode < 128 && stripe < 0x100_0000 && gtype < 128 && vflags < 256 && IsName(name)
    ensures |s| == 8 + |Padded(name)|
  {
    hide Word;
    Head(opcode, stripe) + Head2(gtype, vflags, |Padded(name)|) + Padded(name)
  }

  function Bodies(r: Record): seq<Byte>
    requires r.NewStripe? && WellFormed(r)
  {
    Optional(r.vertices, 4) + (Optional(r.indices, 2) + (Optional(r.colors, 1) + Optional(r.normals, 4)))
  }

  function VFlags(r: Record): (f: nat)
    requires r.NewStripe?
    ensures f < 256
  {
    Flag(r.vertices, 1) + Flag(r.indices, 2) + Flag(r.colors, 4) + Flag(r.normals, 8)
  }

  /** What comes after the name. */
  function Tail(r: Record): seq<Byte>
    requires WellFormed(r)
  {
    match r
    case NewPrim(_, _, _, attrs, floats) => attrs + floats
    case NewStripe(_, _, _, _, _, _, _) => Bodies(r)
    case EditPrim(_, _, _, vtype, data) => Array(data, Unit(vtype))
    case ResetPrim(_, attrs) => attrs
    case _ => []
  }

  function Encode(r: Record): seq<Byte>
    requires WellFormed(r)
  {
    hide Padded, Word, Tail;
    match r
    case Init(view) => Head(8, 0) + view
    case NewPrim(stripe, gtype, name, _, _) => Opening(1, stripe, gtype, 0, name) + Tail(r)
    case DeletePrim(name) => Opening(2, 0, 0, 0, name) + Tail(r)
    case NewStripe(stripe, gtype, name, _, _, _, _) => Opening(3, stripe, gtype, VFlags(r), name) + Tail(r)
    case EditPrim(stripe, gtype, name, vtype, _) => Opening(4, stripe, gtype, FlagOf(vtype), name) + Tail(r)
    case ResetPrim(name, _) => Opening(5, 0, 0, 0, name) + Tail(r)
    case DeleteStripe(stripe, gtype, name) => Opening(6, stripe, gtype, 0, name) + Tail(r)
    case MoveOn(opcode) => Head(opcode, 0)
  }

  predicate AllWellFormed(rs: seq<Record>) {
    forall i :: 0 <= i < |rs| ==> WellFormed(rs[i])
  }

  /** A message: its records one after another. */
  function EncodeAll(rs: seq<Record>): seq<Byte>
    requires AllWellFormed(rs)
  {
    if rs == [] then [] else Encode(rs[0]) + EncodeAll(rs[1..])
  }

  lemma WholeWords(a: nat, b: nat)
    requires a % 4 == 0 && b % 4 == 0
    ensures (a + b) % 4 == 0
  {
  }

  lemma OptionalIsAligned(d: Option<seq<Byte>>, unit: nat)
    requires IsUnit(unit) && (d.Some? ==> |d.value| < 0x8000_0000)
    ensures |Optional(d, unit)| % 4 == 0
  {
    hide Padded, Array;
    if d.Some? { ArrayIsAligned(d.value, unit); }
  }

  lemma BodiesAreAligned(r: Record)
    requires r.NewStripe? && WellFormed(r)
    ensures |Bodies(r)| % 4 == 0
  {
    hide Optional;
    var a, b, c, d := Optional(r.vertices, 4), Optional(r.indices, 2), Optional(r.colors, 1), Optional(r.normals, 4);
    OptionalIsAligned(r.vertices, 4);
    OptionalIsAligned(r.indices, 2);
    OptionalIsAligned(r.colors, 1);
    OptionalIsAligned(r.normals, 4);
    WholeWords(|c|, |d|);
    WholeWords(|b|, |c| + |d|);
    WholeWords(|a|, |b| + |c| + |d|);
  }

  lemma FourTimes(k: nat)
    ensures (4 + 4 * k) % 4 == 0
  {
  }

  lemma ArrayIsAligned(d: seq<Byte>, unit: nat)
    requires IsUnit(unit) && |d| < 0x8000_0000
    ensures |Array(d, unit)| % 4 == 0
  {
    hide Padded, Array;
    WholeWords(4, |Padded(d)|);
  }

  lemma TailIsAligned(r: Record)
    requires WellFormed(r)
    ensures |Tail(r)| % 4 == 0
  {
    hide Padded, Word, Bodies, Array, NumFloats, Unit, IsName;
    match r
    case NewPrim(_, gtype, _, _, _) => FourTimes(NumFloats(gtype));
    case NewStripe(_, _, _, _, _, _, _) => BodiesAreAligned(r);
    case EditPrim(_, _, _, vtype, data) => ArrayIsAligned(data, Unit(vtype));
    case _ =>
  }

  /** Every record takes whole words, and at least one. */
  lemma RecordIsAligned(r: Record)
    requires WellFormed(r)
    ensures |Encode(r)| >= 4 && |Encode(r)| % 4 == 0
  {
    hide Padded, Word, Tail;
    TailIsAligned(r);
  }

  /* ---- an update is laid out like what it replaces ---- */

  /** A new stripe of which only one array is there. */
  function JustOne(stripe: nat, gtype: nat, name: seq<Byte>, vtype: nat, data: seq<Byte>): Record {
    NewStripe(stripe, gtype, name,
              if vtype == 0 then Some(data) else None, if vtype == 1 then Some(data) else None,
              if vtype == 2 then Some(data) else None, if vtype == 3 then Some(data) else None)
  }

  /** An update of the vertices (0), indices (1), colors (2) or normals (3) of a stripe is
      well formed just when a new stripe with those alone is, and it has the same flags and
      the same bytes behind its name. */
  lemma EditIsLaidOutAsNew(stripe: nat, gtype: nat, name: seq<Byte>, vtype: nat, data: seq<Byte>)
    requires vtype < 4
    ensures var e, r := EditPrim(stripe, gtype, name, vtype, data), JustOne(stripe, gtype, name, vtype, data);
            && (WellFormed(e) <==> WellFormed(r)) && FlagOf(vtype) == VFlags(r)
            && (WellFormed(e) ==> Tail(e) == Tail(r) && Opening(4, stripe, gtype, FlagOf(vtype), name)[4..] ==
                                                        Opening(3, stripe, gtype, VFlags(r), name)[4..])
  {
    hide Array, Padded, Word, IsName;
    var e, r := EditPrim(stripe, gtype, name, vtype, data), JustOne(stripe, gtype, name, vtype, data);
    if WellFormed(e) {
      var a := Array(data, Unit(vtype));
      assert a + [] == a && [] + a == a;
    }
  }

  /* ---- reading ---- */

  /** At `at` the message continues with `piece`. */
  ghost predicate At(m: seq<Byte>, at: nat, piece: seq<Byte>) {
    at + |piece| <= |m| && m[at..at + |piece|] == piece
  }

  lemma AtBoth(m: seq<Byte>, at: nat, a: seq<Byte>, b: seq<Byte>)
    requires At(m, at, a + b)
    ensures At(m, at, a) && At(m, at + |a|, b)
  {
    var all := m[at..at + |a + b|];
    assert all[..|a|] == a && all[|a|..] == b;
    assert m[at..at + |a|] == all[..|a|];
    assert m[at + |a|..at + |a| + |b|] == all[|a|..];
  }

  lemma AtByte(m: seq<Byte>, at: nat, piece: seq<Byte>, i: nat)
    requires At(m, at, piece) && i < |piece|
    ensures m[at + i] == piece[i]
  {
    assert m[at..at + |piece|][i] == m[at + i];
  }

  /** The word at `at`. */
  function WordAt(m: seq<Byte>, at: nat): nat
    requires at + 4 <= |m|
  {
    m[at] as nat + 256 * (m[at + 1] as nat) + 0x1_0000 * (m[at + 2] as nat) + 0x100_0000 * (m[at + 3] as nat)
  }

  lemma WordIsRead(m: seq<Byte>, at: nat, n: nat)
    requires n < 0x1_0000_0000 && At(m, at, Word(n))
    ensures WordAt(m, at) == n
  {
    forall i: nat | i < 4 ensures m[at + i] == Word(n)[i] { AtByte(m, at, Word(n), i); }
    assert m[at] == m[at + 0] == n % 256;
    BytesOf(n);
  }

  lemma BytesOf(n: nat)
    ensures n % 256 + 256 * (n / 256 % 256) + 0x1_0000 * (n / 0x1_0000 % 256) + 0x100_0000 * (n / 0x100_0000) == n
  {
    var q := n / 256;
    var p := q / 256;
    assert p == n / 0x1_0000 && p / 256 == n / 0x100_0000;
    assert n == 256 * q + n % 256 && q == 256 * p + q % 256 && p == 256 * (p / 256) + p % 256;
  }

  /** The bytes before the first zero. */
  function ToString(s: seq<Byte>): seq<Byte> {
    if s == [] || s[0] == 0 then [] else [s[0]] + ToString(s[1..])
  }

  lemma {:induction false} ToStringOfZeros(z: seq<Byte>)
    requires forall i :: 0 <= i < |z| ==> z[i] == 0
    ensures ToString(z) == []
  {
  }

  lemma {:induction false} ToStringOfName(name: seq<Byte>, z: seq<Byte>)
    requires 0 !in name && forall i :: 0 <= i < |z| ==> z[i] == 0
    ensures ToString(name + z) == name
  {
    if name == [] {
      assert name + z == z;
      ToStringOfZeros(z);
    } else {
      assert (name + z)[1..] == name[1..] + z;
      ToStringOfName(name[1..], z);
    }
  }

  lemma NameIsRead(name: seq<Byte>)
    requires IsName(name)
    ensures ToString(Padded(name)) == name && |Padded(name)| < 0x1_0000
  {
    ToStringOfName(name, Zeros((4 - |name| % 4) % 4));
  }
}

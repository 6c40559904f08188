/** Picking in the browser: strips are numbered while they are drawn, the number under the
    cursor comes back as two colour bytes, and the strip is found again by counting. */
module Picking {
  import opened Basics

  /** A graphic primitive: its kind, which of its parts are switched on, and which strips
      have lines and points of their own. */
  datatype Graphic = Graphic(name: string, gpType: int, nStrip: nat, on: bool, lines: bool, points: bool,
                             lineStrips: set<nat>, pointStrips: set<nat>)

  /** A strip, as picked: its primitive, its number there, and 0 for points, 1 for lines
      or 2 for triangles. */
  datatype Strip = Strip(gprim: string, strip: nat, kind: int)

  /** While `vbonum` was the number that the shader had, `strip` was drawn. */
  datatype Drawn = Drawn(vbonum: nat, strip: Strip)

  function All(n: nat): seq<bool> {
    seq(n, _ => true)
  }

  /** Which of `n` strips are in the set `s`. */
  function Only(n: nat, s: set<nat>): seq<bool> {
    seq(n, i requires 0 <= i < n => i in s)
  }

  /** The first `n` strips, without the ones that are not there. */
  function Present(name: string, there: seq<bool>, kind: int, n: nat): seq<Strip>
    requires n <= |there|
  {
    if n == 0 then []
    else Present(name, there, kind, n - 1) + if there[n - 1] then [Strip(name, n - 1, kind)] else []
  }

  function Strips(name: string, there: seq<bool>, kind: int): seq<Strip> {
    Present(name, there, kind, |there|)
  }

  /** What of a primitive can be picked, in order. */
  function Pickable(g: Graphic): seq<Strip> {
    match g.gpType
    case 0 => if g.on then Strips(g.name, All(g.nStrip), 0) else []
    case 1 =>
      (if g.on then Strips(g.name, All(g.nStrip), 1) else [])
      + (if g.points then Strips(g.name, Only(g.nStrip, g.pointStrips), 0) else [])
    case 2 =>
      (if g.on then Strips(g.name, All(g.nStrip), 2) else [])
      + (if g.lines then Strips(g.name, Only(g.nStrip, g.lineStrips), 1) else [])
      + (if g.points then Strips(g.name, Only(g.nStrip, g.pointStrips), 0) else [])
    case _ => []
  }

  function AllPickable(scene: seq<Graphic>): seq<Strip> {
    if scene == [] then [] else AllPickable(scene[..|scene| - 1]) + Pickable(scene[|scene| - 1])
  }

  /** Strips with consecutive numbers. */
  function Numbered(start: nat, strips: seq<Strip>): seq<Drawn> {
    seq(|strips|, i requires 0 <= i < |strips| => Drawn(start + i, strips[i]))
  }

  /** Numbers are handed out to `strips`, in order, from the number `v` on, if it is not 0:
      the next number, and what has been drawn so far. */
  function HandOut(v: nat, drawn: seq<Drawn>, strips: seq<Strip>): (nat, seq<Drawn>) {
    if v == 0 then (0, drawn) else (v + |strips|, drawn + Numbered(v, strips))
  }

  lemma HandOutMore(v: nat, drawn: seq<Drawn>, a: seq<Strip>, b: seq<Strip>)
    ensures HandOut(v, drawn, a + b) == HandOut(HandOut(v, drawn, a).0, HandOut(v, drawn, a).1, b)
  {
    assert Numbered(v, a + b) == Numbered(v, a) + Numbered(v + |a|, b);
    assert drawn + (Numbered(v, a) + Numbered(v + |a|, b)) == drawn + Numbered(v, a) + Numbered(v + |a|, b);
  }

  lemma HandOutFrom1(drawn: seq<Drawn>, a: seq<Strip>)
    ensures HandOut(1, drawn, a).1 == drawn + Numbered(1, a)
  {
  }

  lemma HandOutNone(v: nat, drawn: seq<Drawn>)
    ensures HandOut(v, drawn, []) == (v, drawn)
  {
    assert drawn + Numbered(v, []) == drawn;
  }

  lemma HandOutOne(v: nat, drawn: seq<Drawn>, strip: Strip)
    ensures HandOut(v, drawn, [strip]) == if v == 0 then (0, drawn) else (v + 1, drawn + [Drawn(v, strip)])
  {
    assert Numbered(v, [strip]) == [Drawn(v, strip)];
  }

  class Viewer {
    var vbonum: nat
    var draws: seq<Drawn>
    var picked: Option<Strip>

    constructor ()
      ensures vbonum == 0 && draws == [] && picked == None
    {
      vbonum, draws, picked := 0, [], None;
    }

    /** Draw the strips that are there. */
    method DrawStrips(name: string, there: seq<bool>, kind: int)
      modifies this`vbonum, this`draws
      ensures (vbonum, draws) == HandOut(old(vbonum), old(draws), Strips(name, there, kind))
    {
      HandOutNone(vbonum, draws);
      var i := 0;
      while i < |there|
        invariant 0 <= i <= |there|
        invariant (vbonum, draws) == HandOut(old(vbonum), old(draws), Present(name, there, kind, i))
      {
        ghost var now := if there[i] then [Strip(name, i, kind)] else [];
        HandOutMore(old(vbonum), old(draws), Present(name, there, kind, i), now);
        HandOutOne(vbonum, draws, Strip(name, i, kind));
        HandOutNone(vbonum, draws);
        if there[i] && vbonum != 0 {
          draws := draws + [Drawn(vbonum, Strip(name, i, kind))];
          vbonum := vbonum + 1;
        }
        i := i + 1;
      }
    }

    method PlotPoints(g: Graphic)
      requires g.gpType == 0 && g.on
      modifies this`vbonum, this`draws
      ensures (vbonum, draws) == HandOut(old(vbonum), old(draws), Pickable(g))
    {
      DrawStrips(g.name, All(g.nStrip), 0);
    }

    method PlotLines(g: Graphic)
      requires g.gpType == 1
      modifies this`vbonum, this`draws
      ensures (vbonum, draws) == HandOut(old(vbonum), old(draws), Pickable(g))
    {
      hide HandOut, Strips;
      ghost var a := if g.on then Strips(g.name, All(g.nStrip), 1) else [];
      ghost var b := if g.points then Strips(g.name, Only(g.nStrip, g.pointStrips), 0) else [];
      HandOutMore(vbonum, draws, a, b);
      if g.on { DrawStrips(g.name, All(g.nStrip), 1); } else { HandOutNone(vbonum, draws); }
      if g.points { DrawStrips(g.name, Only(g.nStrip, g.pointStrips), 0); } else { HandOutNone(vbonum, draws); }
    }

    method PlotTriangles(g: Graphic)
      requires g.gpType == 2
      modifies this`vbonum, this`draws
      ensures (vbonum, draws) == HandOut(old(vbonum), old(draws), Pickable(g))
    {
      hide HandOut, Strips;
      ghost var a := if g.on then Strips(g.name, All(g.nStrip), 2) else [];
      ghost var b := if g.lines then Strips(g.name, Only(g.nStrip, g.lineStrips), 1) else [];
      ghost var c := if g.points then Strips(g.name, Only(g.nStrip, g.pointStrips), 0) else [];
      HandOutMore(vbonum, draws, a, b);
      HandOutMore(vbonum, draws, a + b, c);
      if g.on { DrawStrips(g.name, All(g.nStrip), 2); } else { HandOutNone(vbonum, draws); }
      if g.lines { DrawStrips(g.name, Only(g.nStrip, g.lineStrips), 1); } else { HandOutNone(vbonum, draws); }
      if g.points { DrawStrips(g.name, Only(g.nStrip, g.pointStrips), 0); } else { HandOutNone(vbonum, draws); }
    }

    method TraverseOne(g: Graphic)
      modifies this`vbonum, this`draws
      ensures (vbonum, draws) == HandOut(old(vbonum), old(draws), Pickable(g))
    {
      hide HandOut, Strips;
      HandOutNone(vbonum, draws);
      match g.gpType {
        case 0 => if g.on { PlotPoints(g); }
        case 1 => if g.on || g.points { PlotLines(g); } else { NothingOn(g); }
        case 2 => if g.on || g.lines || g.points { PlotTriangles(g); } else { NothingOn(g); }
        case _ =>
      }
    }

    /** Draw the scene for picking: the `k`-th strip that can be picked gets number `k + 1`. */
    method TraverseForPicking(scene: seq<Graphic>)
      modifies this`vbonum, this`draws
      ensures draws == old(draws) + Numbered(1, AllPickable(scene)) && vbonum == 0
    {
      hide Pickable, HandOut, AllPickable, Numbered;
      vbonum := 1;
      HandOutNone(vbonum, draws);
      Ends(scene);
      var i := 0;
      while i < |scene|
        invariant 0 <= i <= |scene|
        invariant (vbonum, draws) == HandOut(1, old(draws), AllPickable(scene[..i]))
      {
        var g := scene[i];
        HandOutMore(1, old(draws), AllPickable(scene[..i]), Pickable(g));
        NextGraphic(scene, i);
        TraverseOne(g);
        i := i + 1;
      }
      HandOutFrom1(old(draws), AllPickable(scene));
      vbonum := 0;
    }

    /** Count through strips from `num` on; stop at number `vbonum`. */
    method FindStrip(name: string, there: seq<bool>, kind: int, num: nat, vbonum: nat) returns (found: bool, next: nat)
      requires num <= vbonum
      modifies this`picked
      ensures var strips := Strips(name, there, kind);
              if vbonum < num + |strips| then found && picked == Some(strips[vbonum - num])
              else !found && picked == old(picked) && next == num + |strips| <= vbonum
    {
      found, next := false, num;
      var i := 0;
      while i < |there|
        invariant 0 <= i <= |there| && picked == old(picked)
        invariant next == num + |Present(name, there, kind, i)| <= vbonum
      {
        if there[i] {
          if next == vbonum {
            picked := Some(Strip(name, i, kind));
            Later(name, there, kind, i + 1, |there|);
            return true, next;
          }
          next := next + 1;
        }
        i := i + 1;
      }
    }

    /** Look for number `vbonum` among the strips of one primitive. */
    method FindInGraphic(g: Graphic, num: nat, vbonum: nat) returns (found: bool, next: nat)
      requires num <= vbonum
      modifies this`picked
      ensures var strips := Pickable(g);
              if vbonum < num + |strips| then found && picked == Some(strips[vbonum - num])
              else !found && picked == old(picked) && next == num + |strips| <= vbonum
    {
      hide Strips;
      found, next := false, num;
      match g.gpType {
        case 0 =>
          if g.on { found, next := FindStrip(g.name, All(g.nStrip), 0, next, vbonum); }
        case 1 =>
          if g.on { found, next := FindStrip(g.name, All(g.nStrip), 1, next, vbonum); }
          if !found && g.points { found, next := FindStrip(g.name, Only(g.nStrip, g.pointStrips), 0, next, vbonum); }
        case 2 =>
          if g.on { found, next := FindStrip(g.name, All(g.nStrip), 2, next, vbonum); }
          if !found && g.lines { found, next := FindStrip(g.name, Only(g.nStrip, g.lineStrips), 1, next, vbonum); }
          if !found && g.points { found, next := FindStrip(g.name, Only(g.nStrip, g.pointStrips), 0, next, vbonum); }
        case _ =>
      }
    }

    /** The strip with number `vbonum` is picked; if there is none, nothing changes. */
    method GetPickedObject(scene: seq<Graphic>, vbonum: nat)
      modifies this`picked
      ensures picked == if 1 <= vbonum <= |AllPickable(scene)| then Some(AllPickable(scene)[vbonum - 1]) else old(picked)
    {
      hide Pickable, AllPickable;
      if vbonum == 0 { return; }
      Ends(scene);
      var num, i := 1, 0;
      while i < |scene|
        invariant 0 <= i <= |scene| && picked == old(picked)
        invariant num == 1 + |AllPickable(scene[..i])| <= vbonum
      {
        NextGraphic(scene, i);
        var found, next := FindInGraphic(scene[i], num, vbonum);
        if found {
          InGraphic(scene, i, vbonum - num);
          return;
        }
        num := next;
        i := i + 1;
      }
    }

    /** Pick what is under the cursor, from the first two bytes of its pixel. */
    method Pick(scene: seq<Graphic>, red: nat, green: nat)
      modifies this`picked
      ensures picked == Lookup(scene, red * 256 + green)
      ensures picked.Some? ==> exists g :: g in scene && CanBePicked(g, picked.value)
    {
      hide CanBePicked, AllPickable;
      picked := None;
      if red != 0 || green != 0 { GetPickedObject(scene, red * 256 + green); }
      if picked.Some? { AllPickableIff(scene, picked.value); }
    }
  }

  /** What can be picked: the strips of a primitive that is switched on, as points, lines or
      triangles by its kind; and those lines and points of a primitive that are switched on
      and that a strip has of its own. */
  predicate CanBePicked(g: Graphic, s: Strip) {
    && s.gprim == g.name && s.strip < g.nStrip && 0 <= g.gpType <= 2
    && (|| (g.on && s.kind == g.gpType)
        || (g.lines && g.gpType == 2 && s.kind == 1 && s.strip in g.lineStrips)
        || (g.points && g.gpType >= 1 && s.kind == 0 && s.strip in g.pointStrips))
  }

  lemma {:induction false} PresentIff(name: string, there: seq<bool>, kind: int, n: nat, s: Strip)
    requires n <= |there|
    ensures s in Present(name, there, kind, n) <==> s.gprim == name && s.kind == kind && s.strip < n && there[s.strip]
  {
    if n > 0 { PresentIff(name, there, kind, n - 1, s); }
  }

  lemma StripsIff(name: string, there: seq<bool>, kind: int, s: Strip)
    ensures s in Strips(name, there, kind) <==> s.gprim == name && s.kind == kind && s.strip < |there| && there[s.strip]
  {
    PresentIff(name, there, kind, |there|, s);
  }

  /** Just what can be picked of a primitive is numbered. */
  lemma PickableIff(g: Graphic, s: Strip)
    ensures s in Pickable(g) <==> CanBePicked(g, s)
  {
    hide Strips;
    StripsIff(g.name, All(g.nStrip), g.gpType, s);
    StripsIff(g.name, Only(g.nStrip, g.lineStrips), 1, s);
    StripsIff(g.name, Only(g.nStrip, g.pointStrips), 0, s);
  }

  /** And so for a whole scene. */
  lemma {:induction false} AllPickableIff(scene: seq<Graphic>, s: Strip)
    ensures s in AllPickable(scene) <==> exists g :: g in scene && CanBePicked(g, s)
  {
    hide Pickable, CanBePicked;
    if scene != [] {
      var init, last := scene[..|scene| - 1], scene[|scene| - 1];
      AllPickableIff(init, s);
      PickableIff(last, s);
      assert scene == init + [last];
    }
  }

  /** What is picked by number `n`. */
  function Lookup(scene: seq<Graphic>, n: nat): Option<Strip> {
    if 1 <= n <= |AllPickable(scene)| then Some(AllPickable(scene)[n - 1]) else None
  }

  lemma NothingOn(g: Graphic)
    requires (!g.on && !g.lines && !g.points) || (g.gpType == 1 && !g.on && !g.points)
    ensures Pickable(g) == []
  {
  }

  lemma {:induction false} Later(name: string, there: seq<bool>, kind: int, i: nat, n: nat)
    requires i <= n <= |there|
    ensures Present(name, there, kind, i) <= Present(name, there, kind, n)
    decreases n
  {
    if i < n { Later(name, there, kind, i, n - 1); }
  }

  lemma {:induction false} LaterGraphics(scene: seq<Graphic>, i: nat, n: nat)
    requires i <= n <= |scene|
    ensures AllPickable(scene[..i]) <= AllPickable(scene[..n])
    decreases n
  {
    hide AllPickable;
    if i < n {
      LaterGraphics(scene, i, n - 1);
      NextGraphic(scene, n - 1);
    }
  }

  lemma Ends(scene: seq<Graphic>)
    ensures AllPickable(scene[..0]) == [] && scene[..|scene|] == scene
  {
  }

  lemma NextGraphic(scene: seq<Graphic>, i: nat)
    requires i < |scene|
    ensures AllPickable(scene[..i + 1]) == AllPickable(scene[..i]) + Pickable(scene[i])
  {
    hide Pickable;
    assert scene[..i + 1][..i] == scene[..i];
  }

  lemma InGraphic(scene: seq<Graphic>, i: nat, k: nat)
    requires i < |scene| && k < |Pickable(scene[i])|
    ensures var j := |AllPickable(scene[..i])| + k;
            j < |AllPickable(scene)| && AllPickable(scene)[j] == Pickable(scene[i])[k]
  {
    hide Pickable, AllPickable;
    NextGraphic(scene, i);
    LaterGraphics(scene, i + 1, |scene|);
    assert scene[..|scene|] == scene;
  }

  /* ---- the number as a colour ---- */

  /** The colour that the shader gives to number `n`: red and green. */
  function Encode(n: nat): (real, real) {
    var high := n / 256;
    (high as real / 255.0, (n - high * 256) as real / 255.0)
  }

  /** The byte that a colour channel is stored as: clamped to [0, 1] and rounded. */
  function Stored(channel: real): (byte: nat)
    ensures byte <= 255
  {
    if channel <= 0.0 then 0 else if channel >= 1.0 then 255 else (channel * 255.0 + 0.5).Floor
  }

  lemma StoredBack(k: nat)
    ensures Stored(k as real / 255.0) == if k <= 255 then k else 255
  {
    var c := k as real / 255.0;
    assert c * 255.0 == k as real;
    if k == 0 { assert c <= 0.0; }
    else if k >= 255 { assert c >= 1.0; }
    else { assert 0.0 < c < 1.0; }
  }

  /** The number read back from the pixel that number `n` is drawn to. */
  function ReadBack(n: nat): nat {
    Stored(Encode(n).0) * 256 + Stored(Encode(n).1)
  }

  /** Numbers come back unchanged exactly up to 65535. */
  lemma ReadBackIff(n: nat)
    ensures ReadBack(n) == n <==> n <= 65535
  {
    StoredBack(n / 256);
    StoredBack(n % 256);
    assert n - n / 256 * 256 == n % 256;
  }

  /** Whatever strip was drawn with a number up to 65535, a pixel of it picks that strip
      and no other, and is not taken for background. */
  lemma PickRoundTrip(scene: seq<Graphic>, d: Drawn)
    requires d in Numbered(1, AllPickable(scene)) && d.vbonum <= 65535
    ensures Lookup(scene, ReadBack(d.vbonum)) == Some(d.strip)
    ensures Stored(Encode(d.vbonum).0) != 0 || Stored(Encode(d.vbonum).1) != 0
  {
    ReadBackIff(d.vbonum);
  }

  /** Beyond that a strip is mistaken for an earlier one. */
  lemma PickBeyond(scene: seq<Graphic>, d: Drawn)
    requires d in Numbered(1, AllPickable(scene)) && d.vbonum > 65535
    ensures ReadBack(d.vbonum) < d.vbonum
    ensures Lookup(scene, ReadBack(d.vbonum)) == Some(AllPickable(scene)[ReadBack(d.vbonum) - 1])
  {
    StoredBack(d.vbonum / 256);
  }
}

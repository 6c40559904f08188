/**
 The arc functions agree with each other: the centre they give is equally far
 from both ends, and the midpoint they give lies on the same circle, halfway.
*/
module Arcs {
  import opened Basics
  import opened Functions

  /** All that is asked of the square root. */
  ghost predicate SquareRoot(lib: Library) {
    forall x :: x >= 0.0 ==> RootAt(lib, x)
  }

  predicate RootAt(lib: Library, x: real) {
    lib.sqrt(x) >= 0.0 && lib.sqrt(x) * lib.sqrt(x) == x
  }

  lemma Root(lib: Library, x: real, r: real)
    requires SquareRoot(lib) && x >= 0.0 && r == lib.sqrt(x)
    ensures r >= 0.0 && r * r == x
  {
    assert RootAt(lib, x);
  }

  function Dist2(xa: real, ya: real, xb: real, yb: real): real {
    (xb - xa) * (xb - xa) + (yb - ya) * (yb - ya)
  }

  lemma SquareBound(a: real, b: real)
    requires 0.0 <= b <= a
    ensures b * b <= a * a
  {
  }

  lemma Positive(a: real, b: real, p: real)
    requires p == a * b && a > 0.0 && b > 0.0
    ensures p > 0.0
  {
  }

  /** `q` is the square of `x`. */
  lemma SquareSign(x: real, q: real)
    requires q == x * x
    ensures q >= 0.0 && (q > 0.0 <==> x != 0.0)
  {
    if x > 0.0 {
      Positive(x, x, q);
    } else if x < 0.0 {
      var y := -x;
      assert q == y * y;
      Positive(y, y, q);
    }
  }

  lemma ProductSquare(a: real, b: real, c: real, s: real, q: real)
    requires c == a * b && s == a * a && q == b * b
    ensures c * c == s * q
  {
    assert c * c == (a * b) * (a * b) == (a * a) * (b * b);
  }

  lemma UnitSum(s: real, t: real, q: real, a: real, b: real)
    requires q > 0.0 && a == s * q && b == t * q && a + b == q
    ensures s + t == 1.0
  {
    assert (s + t) * q == q;
  }

  lemma Normalise(dx: real, dy: real, d: real, q: real) returns (u: real, v: real)
    requires d > 0.0 && q == d * d && q == dx * dx + dy * dy
    ensures dx == u * d && dy == v * d && u * u + v * v == 1.0
  {
    u, v := dx / d, dy / d;
    var s, t := u * u, v * v;
    ProductSquare(u, d, dx, s, q);
    ProductSquare(v, d, dy, t, q);
    SquareSign(d, q);
    UnitSum(s, t, q, dx * dx, dy * dy);
  }

  /** The chord as a length and a unit direction (u, v). */
  lemma Direction(lib: Library, xa: real, ya: real, xb: real, yb: real) returns (d: real, u: real, v: real)
    requires SquareRoot(lib) && (xa != xb || ya != yb)
    ensures d == Chord(lib, xa, ya, xb, yb) > 0.0
    ensures xb - xa == u * d && yb - ya == v * d && u * u + v * v == 1.0
  {
    d := Chord(lib, xa, ya, xb, yb);
    var q := Dist2(xa, ya, xb, yb);
    SquareSign(xb - xa, (xb - xa) * (xb - xa));
    SquareSign(yb - ya, (yb - ya) * (yb - ya));
    Root(lib, q, d);
    SquareSign(d, q);
    u, v := Normalise(xb - xa, yb - ya, d, q);
  }

  lemma Leg(lib: Library, R: real, d: real)
    requires SquareRoot(lib) && R * R - d * d / 4.0 >= 0.0
    ensures Apothem(lib, R, d) >= 0.0 && Apothem(lib, R, d) * Apothem(lib, R, d) == R * R - d * d / 4.0
  {
    assert RootAt(lib, R * R - d * d / 4.0);
  }

  /** Radius and apothem span a right triangle with half the chord. */
  lemma Triangle(lib: Library, Cab: real, d: real)
    requires SquareRoot(lib) && d > 0.0 && Abs(Cab) >= EPS06
    ensures var R := Radius(Cab, d); var L := Apothem(lib, R, d);
            L * L + d * d / 4.0 == R * R && 0.0 <= L && d / 2.0 <= R
  {
    var R := Radius(Cab, d);
    SquareBound(R, d / 2.0);
    assert (d / 2.0) * (d / 2.0) == d * d / 4.0;
    Leg(lib, R, d);
  }

  /** A quotient by the chord is a multiple of the direction. */
  lemma Along(lib: Library, e: real, w: real, k: real, d: real)
    requires d > 0.0 && e == w * d
    ensures lib.Quotient(e * k, d) == w * k && w * -k == -(w * k)
  {
    assert e * k == w * k * d;
  }

  /** Offsetting the middle of the chord by h at right angles to it. */
  lemma Offset(xa: real, ya: real, xb: real, yb: real, u: real, v: real, d: real, h: real)
    requires xb - xa == u * d && yb - ya == v * d && u * u + v * v == 1.0
    ensures var x, y := (xa + xb) / 2.0 - v * h, (ya + yb) / 2.0 + u * h;
            Dist2(xa, ya, x, y) == d * d / 4.0 + h * h && Dist2(xb, yb, x, y) == d * d / 4.0 + h * h
  {
    var half := d / 2.0;
    var x, y := (xa + xb) / 2.0 - v * h, (ya + yb) / 2.0 + u * h;
    assert x - xa == u * half - v * h && y - ya == v * half + u * h;
    assert x - xb == -(u * half) - v * h && y - yb == -(v * half) + u * h;
    Pythagoras(u, v, half, h);
    Pythagoras(u, v, -half, h);
  }

  lemma Pythagoras(u: real, v: real, a: real, h: real)
    requires u * u + v * v == 1.0
    ensures (u * a - v * h) * (u * a - v * h) + (v * a + u * h) * (v * a + u * h) == a * a + h * h
  {
    assert (u * a - v * h) * (u * a - v * h) == u * u * (a * a) - 2.0 * (u * v * (a * h)) + v * v * (h * h);
    assert (v * a + u * h) * (v * a + u * h) == v * v * (a * a) + 2.0 * (u * v * (a * h)) + u * u * (h * h);
    assert (u * u + v * v) * (a * a) == a * a && (u * u + v * v) * (h * h) == h * h;
  }

  lemma Apart(mx: real, my: real, u: real, v: real, h: real, k: real)
    requires u * u + v * v == 1.0
    ensures Dist2(mx - v * h, my + u * h, mx - v * k, my + u * k) == (k - h) * (k - h)
  {
    var g := k - h;
    assert v * k - v * h == v * g && u * k - u * h == u * g;
    var s, t, q := u * u, v * v, g * g;
    ProductSquare(v, g, v * g, t, q);
    ProductSquare(u, g, u * g, s, q);
    assert s * q + t * q == (s + t) * q == q;
    assert -(v * g) * -(v * g) == (v * g) * (v * g);
  }

  /** The centre lies off the middle of the chord, at right angles, on the side the sign of Cab says. */
  lemma CentreAt(lib: Library, xa: real, ya: real, Cab: real, xb: real, yb: real, d: real, u: real, v: real)
    returns (x: real, y: real)
    requires Abs(Cab) >= EPS06 && d == Chord(lib, xa, ya, xb, yb) > 0.0
    requires xb - xa == u * d && yb - ya == v * d
    ensures var L := Apothem(lib, Radius(Cab, d), d);
            var h := if Cab > 0.0 then L else -L;
            && x == Xcent(lib, xa, ya, Cab, xb, yb) == (xa + xb) / 2.0 - v * h
            && y == Ycent(lib, xa, ya, Cab, xb, yb) == (ya + yb) / 2.0 + u * h
  {
    x, y := Xcent(lib, xa, ya, Cab, xb, yb), Ycent(lib, xa, ya, Cab, xb, yb);
    var L := Apothem(lib, Radius(Cab, d), d);
    Along(lib, yb - ya, v, L, d);
    Along(lib, xb - xa, u, L, d);
  }

  /** The midpoint lies on the other side. */
  lemma MidpointAt(lib: Library, xa: real, ya: real, Cab: real, xb: real, yb: real, d: real, u: real, v: real)
    returns (x: real, y: real)
    requires Abs(Cab) >= EPS06 && d == Chord(lib, xa, ya, xb, yb) > 0.0
    requires xb - xa == u * d && yb - ya == v * d
    ensures var R := Radius(Cab, d); var L := Apothem(lib, R, d);
            var h := if Cab > 0.0 then -(R - L) else R - L;
            && x == Xmidl(lib, xa, ya, Cab, xb, yb) == (xa + xb) / 2.0 - v * h
            && y == Ymidl(lib, xa, ya, Cab, xb, yb) == (ya + yb) / 2.0 + u * h
  {
    x, y := Xmidl(lib, xa, ya, Cab, xb, yb), Ymidl(lib, xa, ya, Cab, xb, yb);
    var R := Radius(Cab, d);
    var L := Apothem(lib, R, d);
    Along(lib, yb - ya, v, R - L, d);
    Along(lib, xb - xa, u, R - L, d);
  }

  /** A centre that far off the chord is at the same distance from both ends. */
  lemma OnBisector(xa: real, ya: real, xb: real, yb: real, u: real, v: real, d: real, L: real, h: real,
                   R2: real, x: real, y: real)
    requires xb - xa == u * d && yb - ya == v * d && u * u + v * v == 1.0
    requires h == L || h == -L
    requires L * L + d * d / 4.0 == R2
    requires x == (xa + xb) / 2.0 - v * h && y == (ya + yb) / 2.0 + u * h
    ensures Dist2(xa, ya, x, y) == R2 && Dist2(xb, yb, x, y) == R2
  {
    Offset(xa, ya, xb, yb, u, v, d, h);
    assert (-L) * (-L) == L * L;
  }

  /** The radius of an arc: that of its curvature, but no less than half the chord. */
  lemma RadiusIs(lib: Library, xa: real, ya: real, Cab: real, xb: real, yb: real)
    requires SquareRoot(lib) && Abs(Cab) >= 0.000001
    ensures var d := Chord(lib, xa, ya, xb, yb); var R := Radius(Cab, d);
            && d >= 0.0 && d * d == (xb - xa) * (xb - xa) + (yb - ya) * (yb - ya)
            && R * Abs(Cab) >= 1.0 && 2.0 * R >= d && (R * Abs(Cab) == 1.0 || 2.0 * R == d)
  {
    var c, d := Abs(Cab), Chord(lib, xa, ya, xb, yb);
    SquareSign(xb - xa, (xb - xa) * (xb - xa));
    SquareSign(yb - ya, (yb - ya) * (yb - ya));
    Root(lib, Dist2(xa, ya, xb, yb), d);
    var k, R := 1.0 / c, Radius(Cab, d);
    assert k * c == 1.0;
    AtLeast(R, k, c);
  }

  lemma AtLeast(R: real, k: real, c: real)
    requires R >= k && c > 0.0
    ensures R * c >= k * c
  {
    assert (R - k) * c == R * c - k * c;
    if R > k { Positive(R - k, c, (R - k) * c); }
  }

  /** On which side of the chord from (xa, ya) to (xb, yb) a point lies: positive on the left. */
  function Side(xa: real, ya: real, xb: real, yb: real, x: real, y: real): real {
    (xb - xa) * (y - ya) - (yb - ya) * (x - xa)
  }

  /** A point off the middle of the chord. */
  lemma SideOf(xa: real, ya: real, xb: real, yb: real, u: real, v: real, d: real, h: real)
    requires xb - xa == u * d && yb - ya == v * d && u * u + v * v == 1.0
    ensures Side(xa, ya, xb, yb, (xa + xb) / 2.0 - v * h, (ya + yb) / 2.0 + u * h) == d * h
  {
    var p, q, x, y := xb - xa, yb - ya, (xa + xb) / 2.0 - v * h, (ya + yb) / 2.0 + u * h;
    assert y - ya == q / 2.0 + u * h && x - xa == p / 2.0 - v * h;
    assert p * (q / 2.0 + u * h) == p * q / 2.0 + p * (u * h);
    assert q * (p / 2.0 - v * h) == p * q / 2.0 - q * (v * h);
    var s, t, w := u * u, v * v, d * h;
    assert p * (u * h) == s * w && q * (v * h) == t * w;
    assert (s + t) * w == s * w + t * w;
  }

  lemma SignOf(d: real, h: real)
    requires d > 0.0
    ensures (h >= 0.0 ==> d * h >= 0.0) && (h <= 0.0 ==> d * h <= 0.0)
  {
    if h > 0.0 { Positive(d, h, d * h); }
    if h < 0.0 { Positive(d, -h, d * -h); }
  }

  lemma SignOfSide(xa: real, ya: real, xb: real, yb: real, u: real, v: real, d: real, h: real, x: real, y: real)
    requires d > 0.0 && xb - xa == u * d && yb - ya == v * d && u * u + v * v == 1.0
    requires x == (xa + xb) / 2.0 - v * h && y == (ya + yb) / 2.0 + u * h
    ensures (h >= 0.0 ==> Side(xa, ya, xb, yb, x, y) >= 0.0) && (h <= 0.0 ==> Side(xa, ya, xb, yb, x, y) <= 0.0)
  {
    hide Side;
    SideOf(xa, ya, xb, yb, u, v, d, h);
    SignOf(d, h);
  }

  /** The centre is on the left of the chord if the curvature is positive, else on its right. */
  lemma SideOfCentre(lib: Library, xa: real, ya: real, Cab: real, xb: real, yb: real)
    requires SquareRoot(lib) && (xa != xb || ya != yb) && Abs(Cab) >= 0.000001
    ensures var c := Side(xa, ya, xb, yb, Xcent(lib, xa, ya, Cab, xb, yb), Ycent(lib, xa, ya, Cab, xb, yb));
            if Cab > 0.0 then c >= 0.0 else c <= 0.0
  {
    hide Xcent, Ycent, Chord, Radius, Apothem, Side, Abs, SquareRoot;
    var d, u, v := Direction(lib, xa, ya, xb, yb);
    Triangle(lib, Cab, d);
    var L := Apothem(lib, Radius(Cab, d), d);
    var x, y := CentreAt(lib, xa, ya, Cab, xb, yb, d, u, v);
    SignOfSide(xa, ya, xb, yb, u, v, d, if Cab > 0.0 then L else -L, x, y);
  }

  /** The midpoint of the arc is on the other side. */
  lemma SideOfMidpoint(lib: Library, xa: real, ya: real, Cab: real, xb: real, yb: real)
    requires SquareRoot(lib) && (xa != xb || ya != yb) && Abs(Cab) >= 0.000001
    ensures var m := Side(xa, ya, xb, yb, Xmidl(lib, xa, ya, Cab, xb, yb), Ymidl(lib, xa, ya, Cab, xb, yb));
            if Cab > 0.0 then m <= 0.0 else m >= 0.0
  {
    hide Xmidl, Ymidl, Chord, Radius, Apothem, Side, Abs, SquareRoot;
    var d, u, v := Direction(lib, xa, ya, xb, yb);
    Triangle(lib, Cab, d);
    var R := Radius(Cab, d);
    var L := Apothem(lib, R, d);
    ShorterLeg(R, L, d);
    var x, y, h := MidpointOff(lib, xa, ya, Cab, xb, yb, d, u, v, R - L);
    SignOfSide(xa, ya, xb, yb, u, v, d, h, x, y);
  }

  lemma MidpointOff(lib: Library, xa: real, ya: real, Cab: real, xb: real, yb: real, d: real, u: real, v: real, g: real)
    returns (x: real, y: real, h: real)
    requires Abs(Cab) >= EPS06 && d == Chord(lib, xa, ya, xb, yb) > 0.0
    requires xb - xa == u * d && yb - ya == v * d && g == Radius(Cab, d) - Apothem(lib, Radius(Cab, d), d)
    ensures x == Xmidl(lib, xa, ya, Cab, xb, yb) && y == Ymidl(lib, xa, ya, Cab, xb, yb)
    ensures x == (xa + xb) / 2.0 - v * h && y == (ya + yb) / 2.0 + u * h && h == if Cab > 0.0 then -g else g
  {
    hide Xmidl, Ymidl, Chord, Radius, Apothem, Abs;
    x, y := MidpointAt(lib, xa, ya, Cab, xb, yb, d, u, v);
    h := if Cab > 0.0 then -(Radius(Cab, d) - Apothem(lib, Radius(Cab, d), d)) else Radius(Cab, d) - Apothem(lib, Radius(Cab, d), d);
  }

  lemma ShorterLeg(R: real, L: real, d: real)
    requires L * L + d * d / 4.0 == R * R && 0.0 <= L && d > 0.0 && d / 2.0 <= R
    ensures L <= R
  {
    SquareSign(d, d * d);
    if L > R { SquareBound(L, R); }
  }

  /** A straight line has its centre and its midpoint in the middle. */
  lemma StraightHasItsMiddle(lib: Library, xa: real, ya: real, Cab: real, xb: real, yb: real)
    requires Abs(Cab) < 0.000001
    ensures Xcent(lib, xa, ya, Cab, xb, yb) == Xmidl(lib, xa, ya, Cab, xb, yb) == (xa + xb) / 2.0
    ensures Ycent(lib, xa, ya, Cab, xb, yb) == Ymidl(lib, xa, ya, Cab, xb, yb) == (ya + yb) / 2.0
  {
  }

  /** All that is asked of the arc cosine. */
  ghost predicate ArcCosine(lib: Library) {
    forall z {:trigger lib.acos(z)} :: -1.0 <= z <= 1.0 ==> lib.acos(z) >= 0.0 && lib.cos(lib.acos(z)) == z
  }

  /** Half the angle of an arc is that between its axis and the radius to one end: its cosine
      is the distance of the centre from the chord, over the radius. It has the sign of the
      curvature. */
  lemma HalfTurnSpans(lib: Library, xa: real, ya: real, Cab: real, xb: real, yb: real)
    requires SquareRoot(lib) && ArcCosine(lib) && (xa != xb || ya != yb) && Abs(Cab) >= 0.000001
    ensures var h := HalfTurn(lib, xa, ya, Cab, xb, yb);
            var d := Chord(lib, xa, ya, xb, yb); var R := Radius(Cab, d);
            var c := lib.cos(Abs(h));
            && (if Cab > 0.0 then h >= 0.0 else h <= 0.0)
            && c * R >= 0.0 && (c * R) * (c * R) + d * d / 4.0 == R * R
  {
    var d, u, v := Direction(lib, xa, ya, xb, yb);
    Triangle(lib, Cab, d);
    var R := Radius(Cab, d);
    var L := Apothem(lib, R, d);
    ShorterLeg(R, L, d);
    var z := L / R;
    assert z * R == L;
    UpToOne(z, R, L);
    assert lib.Quotient(L, R) == z;
    assert lib.acos(z) >= 0.0;
  }

  lemma UpToOne(z: real, R: real, L: real)
    requires R > 0.0 && z * R == L && 0.0 <= L <= R
    ensures 0.0 <= z <= 1.0
  {
    if z > 1.0 { Positive(z - 1.0, R, (z - 1.0) * R); }
    if z < 0.0 { Positive(-z, R, -z * R); }
  }

  /** The centre is at distance R from both ends. */
  lemma CentreIsEquidistant(lib: Library, xa: real, ya: real, Cab: real, xb: real, yb: real)
    requires SquareRoot(lib) && (xa != xb || ya != yb) && Abs(Cab) >= EPS06
    ensures var R := Radius(Cab, Chord(lib, xa, ya, xb, yb));
            var x, y := Xcent(lib, xa, ya, Cab, xb, yb), Ycent(lib, xa, ya, Cab, xb, yb);
            Dist2(xa, ya, x, y) == R * R && Dist2(xb, yb, x, y) == R * R
  {
    hide Xcent, Ycent, Chord, Radius, Apothem, Dist2, Abs, SquareRoot;
    var d, u, v := Direction(lib, xa, ya, xb, yb);
    Triangle(lib, Cab, d);
    var R := Radius(Cab, d);
    var L := Apothem(lib, R, d);
    var x, y := CentreAt(lib, xa, ya, Cab, xb, yb, d, u, v);
    OnBisector(xa, ya, xb, yb, u, v, d, L, if Cab > 0.0 then L else -L, R * R, x, y);
  }

  /** The midpoint is at distance R from the centre. */
  lemma MidpointIsOnTheCircle(lib: Library, xa: real, ya: real, Cab: real, xb: real, yb: real)
    requires SquareRoot(lib) && (xa != xb || ya != yb) && Abs(Cab) >= EPS06
    ensures var R := Radius(Cab, Chord(lib, xa, ya, xb, yb));
            Dist2(Xcent(lib, xa, ya, Cab, xb, yb), Ycent(lib, xa, ya, Cab, xb, yb),
                  Xmidl(lib, xa, ya, Cab, xb, yb), Ymidl(lib, xa, ya, Cab, xb, yb)) == R * R
  {
    hide Xcent, Ycent, Xmidl, Ymidl, Chord, Radius, Apothem, Dist2, Abs, SquareRoot;
    var d, u, v := Direction(lib, xa, ya, xb, yb);
    var h, k, xc, yc, xm, ym := BothAt(lib, xa, ya, Cab, xb, yb, d, u, v);
    RadiusApart((xa + xb) / 2.0, (ya + yb) / 2.0, u, v, h, k, Radius(Cab, d), xc, yc, xm, ym);
  }

  lemma BothAt(lib: Library, xa: real, ya: real, Cab: real, xb: real, yb: real, d: real, u: real, v: real)
    returns (h: real, k: real, xc: real, yc: real, xm: real, ym: real)
    requires Abs(Cab) >= EPS06 && d == Chord(lib, xa, ya, xb, yb) > 0.0
    requires xb - xa == u * d && yb - ya == v * d
    ensures xc == Xcent(lib, xa, ya, Cab, xb, yb) && yc == Ycent(lib, xa, ya, Cab, xb, yb)
    ensures xm == Xmidl(lib, xa, ya, Cab, xb, yb) && ym == Ymidl(lib, xa, ya, Cab, xb, yb)
    ensures xc == (xa + xb) / 2.0 - v * h && yc == (ya + yb) / 2.0 + u * h
    ensures xm == (xa + xb) / 2.0 - v * k && ym == (ya + yb) / 2.0 + u * k
    ensures k - h == Radius(Cab, d) || k - h == -Radius(Cab, d)
  {
    hide Xcent, Ycent, Xmidl, Ymidl, Chord, Radius, Apothem, Abs;
    var R := Radius(Cab, d);
    var L := Apothem(lib, R, d);
    h, k := if Cab > 0.0 then L else -L, if Cab > 0.0 then -(R - L) else R - L;
    xc, yc := CentreAt(lib, xa, ya, Cab, xb, yb, d, u, v);
    xm, ym := MidpointAt(lib, xa, ya, Cab, xb, yb, d, u, v);
  }

  lemma RadiusApart(mx: real, my: real, u: real, v: real, h: real, k: real, R: real,
                    xc: real, yc: real, xm: real, ym: real)
    requires u * u + v * v == 1.0 && (k - h == R || k - h == -R)
    requires xc == mx - v * h && yc == my + u * h && xm == mx - v * k && ym == my + u * k
    ensures Dist2(xc, yc, xm, ym) == R * R
  {
    Apart(mx, my, u, v, h, k);
    assert (-R) * (-R) == R * R;
  }

  /** The midpoint is as far from one end of the arc as from the other. */
  lemma MidpointIsEquidistant(lib: Library, xa: real, ya: real, Cab: real, xb: real, yb: real)
    requires SquareRoot(lib) && (xa != xb || ya != yb) && Abs(Cab) >= EPS06
    ensures var x, y := Xmidl(lib, xa, ya, Cab, xb, yb), Ymidl(lib, xa, ya, Cab, xb, yb);
            Dist2(xa, ya, x, y) == Dist2(xb, yb, x, y)
  {
    hide Xmidl, Ymidl, Chord, Radius, Apothem, Abs, SquareRoot;
    var d, u, v := Direction(lib, xa, ya, xb, yb);
    var R := Radius(Cab, d);
    var L := Apothem(lib, R, d);
    var x, y := MidpointAt(lib, xa, ya, Cab, xb, yb, d, u, v);
    Offset(xa, ya, xb, yb, u, v, d, if Cab > 0.0 then -(R - L) else R - L);
  }
}

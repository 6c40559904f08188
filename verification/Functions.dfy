/**
 The numeric functions of the expression language. The mathematical library is
 a parameter; what the evaluator adds to it (argument checks, argument order,
 arc geometry) is spelled out.
*/
module Functions {
  import opened Basics
  import opened Tokens

  datatype Result<+T> = Ok(value: T) | Err(status: Status)

  const PI := 3.1415926535897931159979635
  const TWOPI := 6.2831853071795862319959269
  const RAD2DEG := 180.0 / PI
  const EPS06 := 0.000001

  function Degrees(angle: real): real { angle * RAD2DEG }

  function Radians(angle: real): real { angle / RAD2DEG }

  /** The mathematical library, and what dividing by zero gives. */
  datatype Library = Library(
    decimal: string -> real,
    sqrt: real -> real, exp: real -> real, log: real -> real, log10: real -> real,
    sin: real -> real, asin: real -> real, cos: real -> real, acos: real -> real,
    tan: real -> real, atan: real -> real, atan2: (real, real) -> real,
    pow: (real, real) -> real, byZero: real -> real)
  {
    function Quotient(a: real, b: real): real { if b == 0.0 then byZero(a) else a / b }
  }

  function Max(a: real, b: real): (r: real)
    ensures r >= a && r >= b && (r == a || r == b)
  {
    if a < b then b else a
  }

  /** Conversion to int drops the fraction, towards zero. */
  function Trunc(x: real): (n: int)
    ensures Abs(n as real) <= Abs(x) < Abs(n as real) + 1.0
    ensures n != 0 ==> (n > 0 <==> x > 0.0)
  {
    if x >= 0.0 then x.Floor else -((-x).Floor)
  }

  function Arity(f: string): nat {
    if f in {"Xcent", "Ycent", "Xmidl", "Ymidl", "turnang"} then 5
    else if f == "tangent" then 8
    else if f in {"ifzero", "ifpos", "ifneg"} then 3
    else if f in {"min", "max", "atan2", "atan2d", "hypot"} then 2
    else 1
  }

  /** The binary operator `t` applied to `a` on its left and `b` on its right. */
  function OpValue(lib: Library, t: Token, a: real, b: real): Result<real>
    requires t.IsOp()
  {
    match t
    case Plus => Ok(a + b)
    case Minus => Ok(a - b)
    case Times => Ok(a * b)
    case Divide => if b == 0.0 then Err(FuncArgOutOfBounds) else Ok(a / b)
    case Power =>
      if b != Trunc(b) as real && a < 0.0 then Err(FuncArgOutOfBounds) else Ok(lib.pow(a, b))
  }

  // ----- arcs: from A to B with curvature Cab -----

  function Chord(lib: Library, xa: real, ya: real, xb: real, yb: real): real {
    lib.sqrt((xb - xa) * (xb - xa) + (yb - ya) * (yb - ya))
  }

  function Radius(Cab: real, d: real): real
    requires Abs(Cab) >= EPS06
  {
    Max(1.0 / Abs(Cab), d / 2.0)
  }

  /** Distance from the centre of the arc to the middle of its chord. */
  function Apothem(lib: Library, R: real, d: real): real {
    lib.sqrt(R * R - d * d / 4.0)
  }

  function Xcent(lib: Library, xa: real, ya: real, Cab: real, xb: real, yb: real): real {
    if Abs(Cab) < EPS06 then (xa + xb) / 2.0
    else
      var d := Chord(lib, xa, ya, xb, yb);
      var L := Apothem(lib, Radius(Cab, d), d);
      if Cab > 0.0 then (xa + xb) / 2.0 - lib.Quotient((yb - ya) * L, d)
      else (xa + xb) / 2.0 + lib.Quotient((yb - ya) * L, d)
  }

  function Ycent(lib: Library, xa: real, ya: real, Cab: real, xb: real, yb: real): real {
    if Abs(Cab) < EPS06 then (ya + yb) / 2.0
    else
      var d := Chord(lib, xa, ya, xb, yb);
      var L := Apothem(lib, Radius(Cab, d), d);
      if Cab > 0.0 then (ya + yb) / 2.0 + lib.Quotient((xb - xa) * L, d)
      else (ya + yb) / 2.0 - lib.Quotient((xb - xa) * L, d)
  }

  function Xmidl(lib: Library, xa: real, ya: real, Cab: real, xb: real, yb: real): real {
    if Abs(Cab) < EPS06 then (xa + xb) / 2.0
    else
      var d := Chord(lib, xa, ya, xb, yb);
      var R := Radius(Cab, d);
      var L := Apothem(lib, R, d);
      if Cab > 0.0 then (xa + xb) / 2.0 + lib.Quotient((yb - ya) * (R - L), d)
      else (xa + xb) / 2.0 - lib.Quotient((yb - ya) * (R - L), d)
  }

  function Ymidl(lib: Library, xa: real, ya: real, Cab: real, xb: real, yb: real): real {
    if Abs(Cab) < EPS06 then (ya + yb) / 2.0
    else
      var d := Chord(lib, xa, ya, xb, yb);
      var R := Radius(Cab, d);
      var L := Apothem(lib, R, d);
      if Cab > 0.0 then (ya + yb) / 2.0 - lib.Quotient((xb - xa) * (R - L), d)
      else (ya + yb) / 2.0 + lib.Quotient((xb - xa) * (R - L), d)
  }

  /** Half the angle turned through along an arc, in radians, with its sign. */
  function HalfTurn(lib: Library, xa: real, ya: real, Cab: real, xb: real, yb: real): real
    requires Abs(Cab) >= EPS06
  {
    var d := Chord(lib, xa, ya, xb, yb);
    var R := Radius(Cab, d);
    var a := lib.acos(lib.Quotient(Apothem(lib, R, d), R));
    if Cab > 0.0 then a else -a
  }

  function TurnDown(x: real): (r: real)
    ensures r <= PI && (x >= -PI ==> r >= -PI)
    decreases if x > PI then x.Floor + 1 else 0
  {
    if x > PI then TurnDown(x - TWOPI) else x
  }

  function TurnUp(x: real): (r: real)
    ensures r >= -PI && (x <= PI ==> r <= PI)
    decreases if x < -PI then (-x).Floor + 1 else 0
  {
    if x < -PI then TurnUp(x + TWOPI) else x
  }

  /** The turn between arc A-B and arc B-C at B, in degrees. */
  function Tangent(lib: Library, a: seq<real>): real
    requires |a| == 8
  {
    var ab := lib.atan2(a[4] - a[1], a[3] - a[0]) + if Abs(a[2]) > EPS06 then HalfTurn(lib, a[0], a[1], a[2], a[3], a[4]) else 0.0;
    var bc := lib.atan2(a[7] - a[4], a[6] - a[3]) - if Abs(a[5]) > EPS06 then HalfTurn(lib, a[3], a[4], a[5], a[6], a[7]) else 0.0;
    Degrees(TurnUp(TurnDown(bc - ab)))
  }

  /** A call of `f`, arguments in the order they are written. */
  function FuncValue(lib: Library, f: string, a: seq<real>): Result<real>
    requires f in FUNCTIONS && |a| == Arity(f)
  {
    if Arity(f) == 1 then Func1(lib, f, a[0])
    else if Arity(f) == 2 then Func2(lib, f, a[0], a[1])
    else if Arity(f) == 3 then
      var yes := if f == "ifzero" then a[0] == 0.0 else if f == "ifpos" then a[0] > 0.0 else a[0] < 0.0;
      Ok(if yes then a[1] else a[2])
    else if Arity(f) == 8 then Ok(Tangent(lib, a))
    else if f == "Xcent" then Ok(Xcent(lib, a[0], a[1], a[2], a[3], a[4]))
    else if f == "Ycent" then Ok(Ycent(lib, a[0], a[1], a[2], a[3], a[4]))
    else if f == "Xmidl" then Ok(Xmidl(lib, a[0], a[1], a[2], a[3], a[4]))
    else if f == "Ymidl" then Ok(Ymidl(lib, a[0], a[1], a[2], a[3], a[4]))
    else if Abs(a[2]) < EPS06 then Ok(0.0)
    else Ok(Degrees(2.0 * HalfTurn(lib, a[0], a[1], a[2], a[3], a[4])))
  }

  function Func1(lib: Library, f: string, x: real): Result<real> {
    if f in {"sqrt", "log", "log10"} && x < 0.0 then Err(FuncArgOutOfBounds)
    else if f in {"asin", "asind", "acos", "acosd"} && (x < -1.0 || x > 1.0) then Err(FuncArgOutOfBounds)
    else Ok(
      if f == "pi" then x * PI
      else if f == "sqrt" then lib.sqrt(x)
      else if f == "abs" then Abs(x)
      else if f == "int" then Trunc(x) as real
      else if f == "nint" then Trunc(x + 0.5) as real
      else if f == "exp" then lib.exp(x)
      else if f == "log" then lib.log(x)
      else if f == "log10" then lib.log10(x)
      else if f == "sin" then lib.sin(x)
      else if f == "sind" then lib.sin(Radians(x))
      else if f == "asin" then lib.asin(x)
      else if f == "asind" then Degrees(lib.asin(x))
      else if f == "cos" then lib.cos(x)
      else if f == "cosd" then lib.cos(Radians(x))
      else if f == "acos" then lib.acos(x)
      else if f == "acosd" then Degrees(lib.acos(x))
      else if f == "tan" then lib.tan(x)
      else if f == "tand" then lib.tan(Radians(x))
      else if f == "atan" then lib.atan(x)
      else Degrees(lib.atan(x)))
  }

  function Func2(lib: Library, f: string, x: real, y: real): Result<real> {
    if f in {"atan2", "atan2d"} && x == 0.0 && y == 0.0 then Err(FuncArgOutOfBounds)
    else Ok(
      if f == "min" then if y < x then y else x
      else if f == "max" then if y > x then y else x
      else if f == "atan2" then lib.atan2(x, y)
      else if f == "atan2d" then Degrees(lib.atan2(x, y))
      else lib.sqrt(y * y + x * x))
  }

  // ----- what operators and functions mean -----

  predicate IsWhole(x: real) { x.Floor as real == x }

  /** `r` is what `a t b` should be, said by what undoes it where there is such a thing. */
  predicate OpMeans(lib: Library, t: Token, a: real, b: real, r: Result<real>) {
    match t
    case Plus => r.Ok? && r.value - b == a
    case Minus => r.Ok? && r.value + b == a
    case Times => r == Ok(b * a)
    case Divide => if b == 0.0 then r == Err(FuncArgOutOfBounds) else r.Ok? && r.value * b == a
    case Power => r == if a < 0.0 && !IsWhole(b) then Err(FuncArgOutOfBounds) else Ok(lib.pow(a, b))
    case _ => false
  }

  lemma QuotientIs(a: real, b: real, v: real)
    requires b != 0.0
    ensures v * b == a <==> v == a / b
  {
    if v * b == a { assert v * b / b == v; }
  }

  lemma TruncIsWhole(b: real)
    ensures b == Trunc(b) as real <==> IsWhole(b)
  {
    if IsWhole(b) { TruncOfInt(b.Floor); } else { FloorOfInt(Trunc(b)); }
  }

  /** An operator gives just what it should. */
  lemma OpMeansOne(lib: Library, t: Token, a: real, b: real, r: Result<real>)
    requires t in {Plus, Minus, Times, Divide, Power}
    ensures t.IsOp() && (OpMeans(lib, t, a, b, r) <==> r == OpValue(lib, t, a, b))
  {
    hide IsWhole, Trunc;
    TruncIsWhole(b);
    if b != 0.0 && r.Ok? { QuotientIs(a, b, r.value); }
  }

  /** How many arguments each function has. */
  predicate Calls(f: string, n: nat) {
    || (n == 1 && f in {"pi", "sqrt", "abs", "int", "nint", "exp", "log", "log10", "sin", "sind", "asin", "asind",
                        "cos", "cosd", "acos", "acosd", "tan", "tand", "atan", "atand"})
    || (n == 2 && f in {"min", "max", "atan2", "atan2d", "hypot"})
    || (n == 3 && f in {"ifzero", "ifpos", "ifneg"})
    || (n == 5 && f in {"Xcent", "Ycent", "Xmidl", "Ymidl", "turnang"})
    || (n == 8 && f == "tangent")
  }

  /** `v` is `x` without its fraction. */
  predicate DropsFraction(x: real, v: real) {
    IsWhole(v) && Abs(v) <= Abs(x) < Abs(v) + 1.0 && (v > 0.0 ==> x > 0.0) && (v < 0.0 ==> x < 0.0)
  }

  /** One of the library's functions, with the arguments that are refused. */
  predicate Guarded(refused: bool, r: Result<real>, v: real) {
    r == if refused then Err(FuncArgOutOfBounds) else Ok(v)
  }

  /** An angle in radians, given as `r` in degrees. */
  predicate InDegrees(r: Result<real>, angle: real) {
    r.Ok? && r.value * 3.1415926535897931159979635 == angle * 180.0
  }

  /** What a function of one argument should give: arithmetic, ... */
  predicate MeansNumber(lib: Library, f: string, x: real, r: Result<real>) {
    && (f == "pi" ==> r == Ok(x * 3.1415926535897931159979635))
    && (f == "abs" ==> r.Ok? && r.value >= 0.0 && (r.value == x || r.value == -x))
    && (f == "int" ==> r.Ok? && DropsFraction(x, r.value))
    && (f == "nint" ==> r.Ok? && DropsFraction(x + 0.5, r.value))
  }

  /** ... roots, exponents and logarithms, ... */
  predicate MeansPower(lib: Library, f: string, x: real, r: Result<real>) {
    && (f == "sqrt" ==> Guarded(x < 0.0, r, lib.sqrt(x)))
    && (f == "exp" ==> r == Ok(lib.exp(x)))
    && (f == "log" ==> Guarded(x < 0.0, r, lib.log(x)))
    && (f == "log10" ==> Guarded(x < 0.0, r, lib.log10(x)))
  }

  /** ... functions of an angle, ... */
  predicate MeansTurn(lib: Library, f: string, x: real, r: Result<real>) {
    var radians := x * 3.1415926535897931159979635 / 180.0;
    && (f == "sin" ==> r == Ok(lib.sin(x)))
    && (f == "cos" ==> r == Ok(lib.cos(x)))
    && (f == "tan" ==> r == Ok(lib.tan(x)))
    && (f == "sind" ==> r == Ok(lib.sin(radians)))
    && (f == "cosd" ==> r == Ok(lib.cos(radians)))
    && (f == "tand" ==> r == Ok(lib.tan(radians)))
  }

  /** ... and angles. */
  predicate MeansAngle(lib: Library, f: string, x: real, r: Result<real>) {
    && (f == "asin" ==> Guarded(x < -1.0 || x > 1.0, r, lib.asin(x)))
    && (f == "acos" ==> Guarded(x < -1.0 || x > 1.0, r, lib.acos(x)))
    && (f == "atan" ==> r == Ok(lib.atan(x)))
    && (f == "asind" ==> if x < -1.0 || x > 1.0 then r == Err(FuncArgOutOfBounds) else InDegrees(r, lib.asin(x)))
    && (f == "acosd" ==> if x < -1.0 || x > 1.0 then r == Err(FuncArgOutOfBounds) else InDegrees(r, lib.acos(x)))
    && (f == "atand" ==> InDegrees(r, lib.atan(x)))
  }

  predicate Means1(lib: Library, f: string, x: real, r: Result<real>) {
    MeansNumber(lib, f, x, r) && MeansPower(lib, f, x, r) && MeansTurn(lib, f, x, r) && MeansAngle(lib, f, x, r)
  }

  /** What a function of two arguments should give. */
  predicate Means2(lib: Library, f: string, x: real, y: real, r: Result<real>) {
    && (f == "min" ==> r.Ok? && r.value <= x && r.value <= y && (r.value == x || r.value == y))
    && (f == "max" ==> r.Ok? && r.value >= x && r.value >= y && (r.value == x || r.value == y))
    && (f == "atan2" ==> Guarded(x == 0.0 && y == 0.0, r, lib.atan2(x, y)))
    && (f == "atan2d" ==> if x == 0.0 && y == 0.0 then r == Err(FuncArgOutOfBounds) else InDegrees(r, lib.atan2(x, y)))
    && (f == "hypot" ==> r == Ok(lib.sqrt(x * x + y * y)))
  }

  /** What any function should give. */
  predicate FuncMeans(lib: Library, f: string, a: seq<real>, r: Result<real>) {
    && (|a| == 1 ==> Means1(lib, f, a[0], r))
    && (|a| == 2 ==> Means2(lib, f, a[0], a[1], r))
    && (|a| == 3 ==> r == Ok(if (f == "ifzero" && a[0] == 0.0) || (f == "ifpos" && a[0] > 0.0) || (f == "ifneg" && a[0] < 0.0)
                            then a[1] else a[2]))
    && (|a| == 5 ==>
          && (f == "Xcent" ==> r == Ok(Xcent(lib, a[0], a[1], a[2], a[3], a[4])))
          && (f == "Ycent" ==> r == Ok(Ycent(lib, a[0], a[1], a[2], a[3], a[4])))
          && (f == "Xmidl" ==> r == Ok(Xmidl(lib, a[0], a[1], a[2], a[3], a[4])))
          && (f == "Ymidl" ==> r == Ok(Ymidl(lib, a[0], a[1], a[2], a[3], a[4])))
          && (f == "turnang" ==>
                if Abs(a[2]) < 0.000001 then r == Ok(0.0) else InDegrees(r, 2.0 * HalfTurn(lib, a[0], a[1], a[2], a[3], a[4]))))
    && (|a| == 8 ==> r == Ok(Tangent(lib, a)))
  }

  lemma AnglesInDegrees(x: real)
    ensures Radians(x) == x * 3.1415926535897931159979635 / 180.0
    ensures InDegrees(Ok(Degrees(x)), x)
  {
  }

  lemma TruncDropsFraction(x: real)
    ensures DropsFraction(x, Trunc(x) as real)
  {
    FloorOfInt(Trunc(x));
  }

  lemma NumberMeans(lib: Library, f: string, x: real)
    ensures MeansNumber(lib, f, x, Func1(lib, f, x))
  {
    hide Trunc, DropsFraction;
    TruncDropsFraction(x);
    TruncDropsFraction(x + 0.5);
  }

  lemma PowerMeans(lib: Library, f: string, x: real)
    ensures MeansPower(lib, f, x, Func1(lib, f, x))
  {
    hide Trunc, Abs;
  }

  lemma TurnMeans(lib: Library, f: string, x: real)
    ensures MeansTurn(lib, f, x, Func1(lib, f, x))
  {
    hide Trunc, Abs, Degrees, Radians;
    AnglesInDegrees(x);
  }

  lemma AngleMeans(lib: Library, f: string, x: real)
    ensures MeansAngle(lib, f, x, Func1(lib, f, x))
  {
    hide Trunc, InDegrees, Degrees, Radians, Calls;
    AnglesInDegrees(lib.asin(x));
    AnglesInDegrees(lib.acos(x));
    AnglesInDegrees(lib.atan(x));
  }

  lemma Func1Means(lib: Library, f: string, x: real)
    requires Calls(f, 1)
    ensures Means1(lib, f, x, Func1(lib, f, x))
  {
    hide Func1, MeansNumber, MeansPower, MeansTurn, MeansAngle;
    NumberMeans(lib, f, x);
    PowerMeans(lib, f, x);
    TurnMeans(lib, f, x);
    AngleMeans(lib, f, x);
  }

  lemma Func2Means(lib: Library, f: string, x: real, y: real)
    requires Calls(f, 2)
    ensures Means2(lib, f, x, y, Func2(lib, f, x, y))
  {
    hide InDegrees, Degrees;
    AnglesInDegrees(lib.atan2(x, y));
    assert lib.sqrt(y * y + x * x) == lib.sqrt(x * x + y * y);
  }

  lemma NamesAreKnown(f: string, n: nat)
    requires Calls(f, n)
    ensures f in FUNCTIONS && Arity(f) == n
  {
  }

  lemma KnownAreNamed(f: string)
    requires f in FUNCTIONS
    ensures Calls(f, Arity(f))
  {
  }

  /** A function gives what it should, whichever it is. */
  lemma CallMeans(lib: Library, f: string, a: seq<real>)
    requires Calls(f, |a|)
    ensures f in FUNCTIONS && Arity(f) == |a| && FuncMeans(lib, f, a, FuncValue(lib, f, a))
  {
    NamesAreKnown(f, |a|);
    hide Func1, Func2, Means1, Means2, InDegrees, Degrees, Tangent, HalfTurn, Xcent, Ycent, Xmidl, Ymidl, FUNCTIONS;
    if |a| == 1 { Func1Means(lib, f, a[0]); }
    if |a| == 2 { Func2Means(lib, f, a[0], a[1]); }
    if |a| == 5 && Abs(a[2]) >= EPS06 { AnglesInDegrees(2.0 * HalfTurn(lib, a[0], a[1], a[2], a[3], a[4])); }
  }

  /** What an arc adds to the direction of its chord at one end, and takes from it at the other. */
  function Bend(lib: Library, xa: real, ya: real, Cab: real, xb: real, yb: real): real {
    if Abs(Cab) > 0.000001 then HalfTurn(lib, xa, ya, Cab, xb, yb) else 0.0
  }

  /** The tangent turns from the direction in which the first arc ends to that in which the
      second one begins, at most half a turn either way. */
  lemma TangentTurns(lib: Library, xa: real, ya: real, Cab: real, xb: real, yb: real, Cbc: real, xc: real, yc: real)
    returns (angle: real, k: int)
    ensures InDegrees(Ok(Tangent(lib, [xa, ya, Cab, xb, yb, Cbc, xc, yc])), angle)
    ensures -3.1415926535897931159979635 <= angle <= 3.1415926535897931159979635
    ensures var ends := lib.atan2(yb - ya, xb - xa) + Bend(lib, xa, ya, Cab, xb, yb);
            var begins := lib.atan2(yc - yb, xc - xb) - Bend(lib, xb, yb, Cbc, xc, yc);
            ends + angle == begins + k as real * 6.2831853071795862319959269
  {
    hide TurnUp, TurnDown, HalfTurn, InDegrees, Degrees;
    var begins := lib.atan2(yc - yb, xc - xb) - Bend(lib, xb, yb, Cbc, xc, yc);
    var ends := lib.atan2(yb - ya, xb - xa) + Bend(lib, xa, ya, Cab, xb, yb);
    angle := TurnUp(TurnDown(begins - ends));
    k := TurnsAreWhole(begins - ends);
    AnglesInDegrees(angle);
  }

  // ----- what some functions give -----

  lemma FloorOfInt(k: int)
    ensures (k as real).Floor == k
  {
  }

  lemma TruncOfInt(k: int)
    ensures Trunc(k as real) == k
  {
    FloorOfInt(k);
    FloorOfInt(-k);
    assert -(k as real) == (-k) as real;
  }

  /** `nint` adds a half and drops the fraction, which is nearest only as long as that does
      not lead below zero, or to a whole number. */
  lemma NintIsNearestIff(lib: Library, x: real)
    ensures var r := Func1(lib, "nint", x);
            r.Ok? && IsWhole(r.value) && (Abs(r.value - x) <= 0.5 <==> x >= -0.5 || IsWhole(x + 0.5))
  {
    var n := Trunc(x + 0.5);
    FloorOfInt(n);
    if IsWhole(x + 0.5) {
      TruncOfInt((x + 0.5).Floor);
    } else if x < -0.5 {
      assert n as real > x + 0.5;
    }
  }

  lemma {:induction false} DownByTurns(x: real) returns (k: nat)
    ensures TurnDown(x) == x - k as real * TWOPI
    decreases if x > PI then x.Floor + 1 else 0
  {
    if x > PI {
      var j := DownByTurns(x - TWOPI);
      k := j + 1;
      assert k as real * TWOPI == j as real * TWOPI + TWOPI;
    } else {
      k := 0;
    }
  }

  lemma {:induction false} UpByTurns(x: real) returns (k: nat)
    ensures TurnUp(x) == x + k as real * TWOPI
    decreases if x < -PI then (-x).Floor + 1 else 0
  {
    if x < -PI {
      var j := UpByTurns(x + TWOPI);
      k := j + 1;
      assert k as real * TWOPI == j as real * TWOPI + TWOPI;
    } else {
      k := 0;
    }
  }

  /** An angle is brought to at most half a turn either way, by whole turns. */
  lemma TurnsAreWhole(x: real) returns (k: int)
    ensures var r := TurnUp(TurnDown(x));
            && -3.1415926535897931159979635 <= r <= 3.1415926535897931159979635
            && r == x + k as real * 6.2831853071795862319959269
  {
    var down: int := DownByTurns(x);
    var up: int := UpByTurns(TurnDown(x));
    k := up - down;
    assert k as real * TWOPI == up as real * TWOPI - down as real * TWOPI;
  }
}

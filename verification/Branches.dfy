/** Branches of a model: their types, classes and activities. */
module Branches {

  datatype Type =
    | Box | Sphere | Cone | Cylinder | Torus | Import | UdPrim
    | Extrude | Loft | Revolve
    | Fillet | Chamfer | Hollow
    | Intersect | Subtract | Union
    | Translate | RotateX | RotateY | RotateZ | Scale
    | SkBeg | LinSeg | CirArc | Spline | SkEnd
    | SolBeg | SolCon | SolEnd
    | Set | MacBeg | MacEnd | Recall | PatBeg | PatEnd | Mark | Dump

  datatype Class = Primitive | Grown | Applied | Boolean | Transform | Sketch | Solver | Utility

  datatype Activity = Active | Suppressed | Inactive | Deferred

  function ClassOf(t: Type): Class {
    match t
    case Box | Sphere | Cone | Cylinder | Torus | Import | UdPrim => Primitive
    case Extrude | Loft | Revolve => Grown
    case Fillet | Chamfer | Hollow => Applied
    case Intersect | Subtract | Union => Boolean
    case Translate | RotateX | RotateY | RotateZ | Scale => Transform
    case SkBeg | LinSeg | CirArc | Spline | SkEnd => Sketch
    case SolBeg | SolCon | SolEnd => Solver
    case _ => Utility
  }

  /** A Branch, with the links that checking gives it. */
  datatype Brch = Brch(typ: Type, actv: Activity, ileft: int, irite: int, ichld: int) {
    function Class(): Class { ClassOf(typ) }
  }

  datatype Status =
    | Success
    | LoftWithoutMark
    | ExpectingNLoftSketches
    | TooManySketchesInLoft
    | ExpectingOneSketch
    | ExpectingOneBody
    | ExpectingTwoBodys
    | SketcherIsOpen
    | SketcherIsNotOpen
    | SolverIsOpen
    | SolverIsNotOpen

  const MAX_NUM_SKETCHES := 100
}

# OpenCSM and its browser viewer, verified

This project models the language at the heart of OpenCSM, and the parts of its browser
viewer that carry state, and proves what they promise.

A model is a list of *Branches*: primitives, Booleans, transformations, sketches, patterns,
macros. Arguments of Branches are expressions. `ocsmCheck` links each Branch to the ones it
takes its operands from, and decides which Branches are active; `ocsmBuild` then executes
the active ones, jumping for patterns and macros, with a stack of *Bodys*.

| files | what they model |
|---|---|
| Tokens, Grammar, Unambiguous, Chains, Compiler | expressions: tokens, what they accept, why they have one reading, what precedence makes of them, and the operator-stack compiler to Rpn-code |
| Functions, Evaluator, Expressions, Arcs | the machine that runs Rpn-code, its functions, and the two together |
| Branches, LinkSpec, LinkStack, Checker, ActivitySpec, Operands | the linker: backward scans against an explicit stack, how suppression spreads, and what comes out for each type of Branch |
| BodyStack, Parents, Suppression, Astray | the run-time stack of Bodys in straight-line models, whatever is suppressed: when it follows the links, and models for which it does not |
| JumpMachine, Structured, Jumps, Builds, Builder, Nesting | the Branch loop with its jumps, against nested loops and calls |
| Matsol | Gaussian elimination, in place, over exact reals |
| BrchNames, BrchTable | inserting, deleting, naming and copying Branches |
| SelectBody, BodyGraph | choosing one of several Bodys; the Body that two Faces have in common |
| TreeSpec, ViewTree | the tree in the browser: growing, walking, opening and closing |
| Picking | numbering what is drawn, and finding it again |
| SceneRecords, SceneStream | the binary messages that describe a scene |
| Basics | options, absolute values |

Where the source changes things step by step, a class or a method with loops does so here,
and is proved against a specification; the theorems are about the specifications. Buffers of
a fixed size are arrays with a counter; lists that grow or shrink are sequences in a field.

Where the code does not do what one would expect, the code was kept:

* A BOOLEAN that loses both operands to suppression leaves nothing on the Body stack. What
  is linked to it may then find the stack too short (`Astray.ClashUnderflows`), or silently
  take a Body that it has nothing to do with (`Astray.ClashTakesAnother`); if nothing that
  stays ACTIVE is linked to it, no harm is done. The build follows the links if and only if
  every ACTIVE Branch has a Body for each operand (`BodyStack.FollowsIffServed`); with only
  PRIMITIVE, APPLIED and TRANSFORM Branches suppressed, the links and the suppression decide
  it before the build (`Suppression.FollowsIffSound`).
* A sketch with some other Branch inside passes the check, and its Body may then be missing
  (`Astray.InterruptedUnderflows`); with nothing suppressed the links say exactly when
  (`BodyStack.UnsuppressedFollowsIff`).
* A Branch that was given the beginning of a solver, a BOOLEAN for example, loses it to the next
  Branch of that solver, and the check succeeds (`Operands.SolverTakesOver`); nothing else that
  was claimed is ever lost (`Operands.CheckedSatisfies`).
* `ocsmBuild` wakes the Branches of macros for good: a second build without a check in
  between runs them where they stand, and cannot end well. Without macros it finds the
  Branches as they were, but not the Parameters (`Builds.SecondBuild`).
* A patbeg without a patend is not noticed, because the wrong field is tested. With no copies
  to make, the loop goes to Branch 0; otherwise the patbeg gives its iterator the value 1,
  takes up a frame, and does nothing else (`Builds.UnmatchedPatBeg`,
  `Structured.OpenOnlyAssigns`), so that the build can end well
  (`Builds.UnmatchedPatBegExists`). Models whose patterns and macros nest never get there
  (`Nesting.ProgramIffWellNested`).
* A failing `ocsmNewBrch` removes a Branch, in general (`BrchTable.Table.NewBrch`,
  `BrchTable.FailureKeepsTableIff`); and a set or patbeg whose Parameter is new is added
  even if an argument is missing.
* `nint` is the nearest integer only from -0.5 on, and halfway between integers
  (`Functions.NintIsNearestIff`).
* `matsol` refuses systems that are not singular (`Matsol.RefusedButSolvable`); the
  system has exactly one solution if and only if the block that is left over has
  (`Matsol.RefusalIsRightIff`), which at the last column means that the refused entry is not
  zero (`Matsol.LastRefusalIsRightIff`).
* Beyond 65535 strips a pick finds the wrong one (`Picking.PickBeyond`).
* Messages are applied when the last word of the newest one looks like opcode 7, whatever it
  belongs to (`SceneStream.EndsBatchIff`, `SceneStream.DataCanEndBatch`).

`dafny verify dfyconfig.toml` checks everything.

## Model

| member | source | states |
|---|---|---|
| Tokens.Tokenize | src/OpenCSM/OpenCSM.c:11992-12168 | Succeeds exactly when the expanded token list with its outer parentheses has fewer than 128 tokens and every parenthesis matches; then the tokens are that list. An error is one that the list deserves: a parenthesis that closes nothing, one that is never closed, or too many tokens. |
| Tokens.AddLexeme | src/OpenCSM/OpenCSM.c:12000-12135 | One lexeme more, with a zero before a sign that has nothing on its left; fails exactly when the expanded prefix no longer fits. |
| Tokens.CloseIsRejected | src/OpenCSM/OpenCSM.c:12136-12152 | A parenthesis that closes nothing is reported as such, wherever it is. |
| Tokens.CheckTokens | src/OpenCSM/OpenCSM.c:12172-12353 | Refuses exactly the lists with two neighbours that may not follow one another, then unknown functions, then numbers with two points, in that order of precedence; what it lets through has no number with two points. |
| Expressions.UnaryIsBinary | src/OpenCSM/OpenCSM.c:12110-12119 | A sign with nothing on its left means exactly what the number 0 and that sign mean, in any context. |
| Expressions.FullFormIsKept | src/OpenCSM/OpenCSM.c:12110-12119 | A list in which every sign has something on its left is not changed, but for the outer parenthesis. |
| Expressions.WrittenStandsForItself | src/OpenCSM/OpenCSM.c:12110-12140 | What a tree is written as stands for that tree: expanding it only adds the outer parentheses. |
| Grammar.AcceptedIffWritten | src/OpenCSM/OpenCSM.c:12150-12285 | A token list passes the balance and sequence tests if and only if it is a parenthesised list of expression trees, written out. |
| Grammar.WrittenIsAccepted | src/OpenCSM/OpenCSM.c:12150-12285 | Every expression tree, written out, passes both tests. |
| Grammar.Parse | src/OpenCSM/OpenCSM.c:12172-12285 | Every accepted list has a tree with operators grouped by precedence, to the left, that it is the writing of. |
| Grammar.ReadExpr | src/OpenCSM/OpenCSM.c:12366-12411 | Reading from any operand gives the longest expression whose operators bind at least as tightly as asked. |
| Compiler.PopUntil | src/OpenCSM/OpenCSM.c:12364-12411 | The pops before an operator or comma do what the popping function does, down to the entry that stops them. |
| Compiler.PopParens | src/OpenCSM/OpenCSM.c:12417-12436 | A closing parenthesis pops to the matching opening one, and a function below it too. |
| Compiler.ReadToken | src/OpenCSM/OpenCSM.c:12360-12474 | One token takes the two stacks to the state that the specification gives; a full stack is the only failure. |
| Compiler.Compile | src/OpenCSM/OpenCSM.c:12355-12487 | The code is that of the operator-stack machine, and for any list that fits the token array and has a closing parenthesis no stack overflows; the code of any chain of operands and operators is in the order of precedence: last of all the last plus or minus, else the last times or divide, else the last power. |
| Compiler.CodeOfChain | src/OpenCSM/OpenCSM.c:12366-12411 | That order, for chains of any length, with numbers, names, parentheses and calls for operands; precedence is told operator by operator, without levels. |
| Compiler.ThreeOperands | src/OpenCSM/OpenCSM.c:12366-12411 | For two operators p and q between a, b and c: the code is a b c q p if p is plus or minus and q is times, divide or power, or p is times or divide and q is power; otherwise it is a b p c q. |
| Compiler.CodeIsPostorder | src/OpenCSM/OpenCSM.c:12355-12487 | Compiler correctness: for every list of expression trees, of any nesting, the code without its commas is the post-order of the trees. |
| Compiler.CompilesExpr | src/OpenCSM/OpenCSM.c:12360-12411 | Compiling any tree on any pair of stacks leaves its pending operators on one and emits the rest of its post-order on the other. |
| Compiler.CompilesClose | src/OpenCSM/OpenCSM.c:12417-12436 | A closing parenthesis emits what is pending inside and the function it belongs to, and nothing below. |
| Compiler.SizeBound | src/OpenCSM/OpenCSM.c:11923-11953 | Entries on both stacks together never exceed the tokens read so far that are not closing parentheses. |
| Evaluator.CommasAreSkipped | src/OpenCSM/OpenCSM.c:12561-13004 | Commas in the code never change the outcome. |
| Evaluator.EvalPost | src/OpenCSM/OpenCSM.c:12561-13017 | Running the post-order of a tree on any stack pushes the value of the tree, or stops with the first error met from left to right. |
| Evaluator.EvalPostAll | src/OpenCSM/OpenCSM.c:12561-13017 | The same for lists of arguments: their values are pushed in order. |
| Evaluator.FindParameter | src/OpenCSM/OpenCSM.c:12571-12592 | The first Parameter of that name, or the error that there is none. |
| Evaluator.EvalStep | src/OpenCSM/OpenCSM.c:12564-13004 | One entry of code changes the value stack as the specification says, operands and arguments in the order they were pushed. |
| Evaluator.EvalRpn | src/OpenCSM/OpenCSM.c:12557-13017 | For code of fewer than 128 entries, the outcome and its error are those of the machine without a capacity, so the value stack cannot overflow midway; and code of numbers and one operator or function reports what that operator or function should give. |
| Evaluator.CodeIsLawful | src/OpenCSM/OpenCSM.c:12633-13001 | The difference and the right operand make the left one, the quotient times the divisor is the dividend; dividing by 0, and a negative number to a power that is not whole, are errors; every function has its number of arguments, its guards, and its arguments in order. |
| Functions.OpMeansOne | src/OpenCSM/OpenCSM.c:12633-12667 | These laws of the operators leave one result. |
| Functions.CallMeans | src/OpenCSM/OpenCSM.c:12669-13001 | Each function by name: how many arguments it has, which it refuses, and what it gives. |
| Functions.KnownAreNamed | src/OpenCSM/OpenCSM.c:12287-12329 | No other function is known. |
| Functions.TangentTurns | src/OpenCSM/OpenCSM.c:12931-12975 | The tangent turns from the direction in which the first arc ends to that in which the second begins, by at most half a turn either way, up to whole turns. |
| Expressions.SimpleListHasValue | src/OpenCSM/OpenCSM.c:12561-13017 | An accepted list without commas and calls stands for one tree and for no other, and its code runs to the value of that tree without underflow or leftovers. |
| Expressions.TreeIsUnique | src/OpenCSM/OpenCSM.c:12172-12285 | A lexeme list never stands for two trees. |
| Unambiguous.WrittenIsInjective | src/OpenCSM/OpenCSM.c:12364-12436 | No two expression trees that respect precedence and left associativity are written with the same tokens. |
| Unambiguous.WrittenAllIsInjective | src/OpenCSM/OpenCSM.c:12364-12436 | Nor are two lists of such trees: commas outside of all parentheses are the only ones that separate. |
| Expressions.Str2Rpn | src/OpenCSM/OpenCSM.c:11983-12487 | Code comes out exactly for the lists that are accepted, and fits. |
| Expressions.Str2Val | src/OpenCSM/OpenCSM.c:13037-13063 | End to end: whatever tree a list stands for, its reported value and error are those of the tree; and a chain is reported as the value of what is left of its last plus or minus (or else times or divide, or else power), combined with the value of what is right of it. |
| Functions.Trunc | src/OpenCSM/OpenCSM.c:12706-12716 | Conversion to integer drops the fraction, towards zero, and keeps the sign. |
| Functions.NintIsNearestIff | src/OpenCSM/OpenCSM.c:12711-12715 | nint gives a nearest integer if and only if its argument is at least -0.5 or exactly halfway between integers; otherwise it is off. |
| Functions.TurnsAreWhole | src/OpenCSM/OpenCSM.c:12967-12973 | The loops that bring an angle to at most half a turn either way terminate and change it by whole turns only. |
| Arcs.CentreIsEquidistant | src/OpenCSM/OpenCSM.c:12831-12870 | For distinct ends and curvature at least EPS06, the centre has the same distance from both ends, the larger of the given radius and half the chord. |
| Arcs.RadiusIs | src/OpenCSM/OpenCSM.c:12839-12841 | The chord squared is the sum of the squares of its sides; the radius is one over the curvature, or half the chord if that is more. |
| Arcs.SideOfCentre | src/OpenCSM/OpenCSM.c:12843-12847 | The centre is on the left of the chord if the curvature is positive, else on its right. |
| Arcs.SideOfMidpoint | src/OpenCSM/OpenCSM.c:12871-12910 | The midpoint of the arc is on the other side. |
| Arcs.HalfTurnSpans | src/OpenCSM/OpenCSM.c:12911-12930 | Half the angle of an arc has the sign of the curvature, and its cosine times the radius is the distance from the centre to the chord. |
| Arcs.StraightHasItsMiddle | src/OpenCSM/OpenCSM.c:12837-12838 | With a curvature below 1e-6 the centre and the midpoint are the middle of the chord. |
| Arcs.MidpointIsOnTheCircle | src/OpenCSM/OpenCSM.c:12831-12910 | The midpoint of the arc has that distance from the centre, too. |
| Arcs.MidpointIsEquidistant | src/OpenCSM/OpenCSM.c:12871-12910 | The midpoint of the arc has the same distance from both ends. |
| LinkStack.LinkAllAdvances | src/OpenCSM/OpenCSM.c:2202-2455 | After every prefix, the Branches without a child are exactly those on the explicit stack, children come later and left parents earlier. |
| LinkStack.LinkOneAdvances | src/OpenCSM/OpenCSM.c:2209-2455 | The same for one Branch of any class, whatever came before. |
| Checker.Model.FindOpen | src/OpenCSM/OpenCSM.c:2251-2258 | The backward scan for a Branch without a child finds the top of the explicit stack. |
| Checker.Model.FindTwoOpen | src/OpenCSM/OpenCSM.c:2297-2307 | The backward scan for two of them finds the two topmost, and reports exactly when there are fewer. |
| Checker.Model.LinkGrown | src/OpenCSM/OpenCSM.c:2248-2267 | Links and status are those of popping one operand. |
| Checker.Model.LinkApplied | src/OpenCSM/OpenCSM.c:2270-2292 | The same, and a sketch on top is refused. |
| Checker.Model.LinkBoolean | src/OpenCSM/OpenCSM.c:2294-2320 | Links and status are those of popping two operands, the older one to the left. |
| Checker.Model.LinkTransform | src/OpenCSM/OpenCSM.c:2322-2342 | Links and status are those of popping one operand. |
| Checker.Model.LinkLoftBranch | src/OpenCSM/OpenCSM.c:2213-2246 | Links and status are those of taking all operands above the last mark, oldest to the left. |
| Checker.Model.LinkSketchBranch | src/OpenCSM/OpenCSM.c:2348-2374 | Links and status are those of continuing the sketch that was begun last, if it is still open. |
| Checker.Model.LinkSolverBranch | src/OpenCSM/OpenCSM.c:2376-2404 | Links and status are those of continuing the solver that was begun last, if it is still open. |
| Checker.Model.LinkMacEndBranch | src/OpenCSM/OpenCSM.c:2406-2428 | All operands inside of the macro are claimed, back to the macbeg that matches. |
| Checker.Model.LinkDump | src/OpenCSM/OpenCSM.c:2436-2455 | Links and status are those of popping one operand that is not the end of a macro. |
| Checker.Model.LinkBranches | src/OpenCSM/OpenCSM.c:2202-2466 | All links at once; a refusal is that of the first Branch that the explicit stack refuses, with its status. |
| Checker.Model.SpreadFrom | src/OpenCSM/OpenCSM.c:2476-2541 | A suppressed Branch inactivates exactly the Branches on the walks that start from it. |
| Checker.Model.SpreadAll | src/OpenCSM/OpenCSM.c:2475-2544 | All suppressed Branches together inactivate exactly the union of their walks. |
| Checker.Model.DeferAll | src/OpenCSM/OpenCSM.c:2546-2556 | Exactly the active Branches inside of macros are deferred. |
| Checker.Model.Check | src/OpenCSM/OpenCSM.c:2172-2575 | Success exactly when the explicit stack never underflows and nothing is refused; then all links and activities are the specified ones, and every Branch has claimed what its type asks for; otherwise the first refused Branch is marked, and it deserved that by its type. |
| Operands.CheckedSatisfies | src/OpenCSM/OpenCSM.c:3418-3537 | In a checked model, by type and without classes: intersect, subtract and union have claimed two Branches, the older on the left, and no other; extrudes, revolves, fillets, chamfers, hollows, translates, rotations, scales, dumps and sketch Branches have claimed one and no other (no end of a sketch for fillets, chamfers and hollows); primitives, beginnings, recalls and bystanders none; lofts and macro ends everything that was left. |
| Operands.PassesIff | src/OpenCSM/OpenCSM.c:2202-2466 | A model passes the check if and only if no Branch, when its turn comes, deserves to be refused; what each type is refused for is told by the Branches that are left without a child. |
| Operands.RefusedForIff | src/OpenCSM/OpenCSM.c:2202-2466 | Each refusal has exactly the reason that the Branch deserves. |
| Operands.SolverTakesOver | src/OpenCSM/OpenCSM.c:2376-2404 | A Branch can lose what it has claimed: if a BOOLEAN was given the beginning of a solver, the next Branch of that solver takes it away. |
| Operands.ReachByType | src/OpenCSM/OpenCSM.c:2475-2541 | What a suppressed Branch inactivates, by its type: primitives their children, extrudes, revolves and lofts also their left parents back to the beginning of the sketch or the mark, others nothing. |
| Operands.ChildrenByType | src/OpenCSM/OpenCSM.c:2511-2541 | Children go along up to the first intersect, subtract or union, and then fillets, chamfers and hollows right behind it. |
| ActivitySpec.ReachedIff | src/OpenCSM/OpenCSM.c:2475-2544 | Inactivated means on a walk from some suppressed Branch, and nothing else. |
| ActivitySpec.CheckIsIdempotent | src/OpenCSM/OpenCSM.c:2202-2556 | A second check of a checked model succeeds and changes nothing. |
| ActivitySpec.SuppressingMoreIsMonotone | src/OpenCSM/OpenCSM.c:2475-2544 | Suppressing more Branches never brings one back. |
| ActivitySpec.SameLinkAll | src/OpenCSM/OpenCSM.c:2202-2466 | Links depend on the types of the Branches only, not on old links or on suppression. |
| BodyStack.LinkAllMoves | src/OpenCSM/OpenCSM.c:2202-2374 | In straight-line models, with sketches interrupted or not, linking each Branch changes the operand stack by taking its parents off and putting it on; the links of the checked model say which. |
| BodyStack.StraightTypes | src/OpenCSM/OpenCSM.c:3418-3537 | The Body stack is followed for models of all types but lofts, marks, macros, recalls, patterns and solvers. |
| BodyStack.ExecuteByType | src/OpenCSM/OpenCSM.c:3198-3244 | An ACTIVE Branch puts a Body on the stack, takes one off first or two, or leaves the stack alone, by its type. |
| BodyStack.TakenByType | src/OpenCSM/OpenCSM.c:3198-3244 | It takes the top Body, or the two topmost with the older one for its left operand, by its type. |
| BodyStack.FollowsIffServed | src/OpenCSM/OpenCSM.c:2749-2770 | For every checked model without lofts, marks, macros, patterns and solvers, whatever is suppressed and wherever sketches are interrupted: at every point of the build the Body stack is what stands for the operands, and each Branch takes what stands for its own, if and only if every ACTIVE Branch has one Body for each operand (and no sketch goes on after something that has a Body). |
| BodyStack.ServedUntil | src/OpenCSM/OpenCSM.c:2749-2770 | Otherwise the build follows the links up to the first Branch that is not served, and does not at that one. |
| BodyStack.InStepIffServed | src/OpenCSM/OpenCSM.c:3198-3244 | One Branch finds just its operands on the Body stack and leaves what stands for the operand stack after it if and only if it is served. |
| BodyStack.UnsuppressedFollowsIff | src/OpenCSM/OpenCSM.c:2348-2374 | With nothing suppressed, the build follows the links if and only if no Branch was linked to a part of an open sketch and no sketch goes on after an operand: interrupting a sketch is harmless or not as its links say. |
| BodyStack.SuppressedGrownLeaves | src/OpenCSM/OpenCSM.c:2494-2509 | A suppressed GROWN Branch other than a loft leaves on the Body stack just the right operands of the BOOLEANs that its walk to the left passes. |
| Suppression.DroppedIffReached | src/OpenCSM/OpenCSM.c:2511-2541 | The walks inactivate exactly the Branches made from lost operands: all up to a BOOLEAN, that BOOLEAN, and the APPLIED Branches directly after it. |
| Suppression.FollowsIffSound | src/OpenCSM/OpenCSM.c:2511-2541 | When only PRIMITIVE, APPLIED and TRANSFORM Branches are suppressed, and sketches are not interrupted: the build follows the links if and only if no Branch that stays ACTIVE has an operand of which nothing is left, which a recursion over the links decides before the build. |
| Suppression.RepIsVoid | src/OpenCSM/OpenCSM.c:2511-2541 | An operand has no Body just when that recursion says so, and otherwise exactly one. |
| Suppression.RepresentedIffNoClash | src/OpenCSM/OpenCSM.c:2511-2541 | Exactly the lost operands have no Body, and every other has one, if and only if no BOOLEAN loses both operands; a sufficient condition for the build, not a necessary one. |
| Suppression.BuildFollowsLinks | src/OpenCSM/OpenCSM.c:2749-2770 | If no BOOLEAN loses both operands, then at every point of the build the Body stack is not too short, is the operand stack with each operand replaced by what stands for it, and each Branch takes what stands for its operands. |
| Suppression.AllActiveNeverUnderflows | src/OpenCSM/OpenCSM.c:6743-6750 | With nothing suppressed and sketches not interrupted, no Branch of a checked straight-line model ever meets a Body stack that is too short. |
| Astray.ClashUnderflows | src/OpenCSM/OpenCSM.c:2511-2541 | Suppress both operands of a BOOLEAN, with no Body before them: the TRANSFORM after it finds the Body stack too short. |
| Astray.ClashTakesAnother | src/OpenCSM/OpenCSM.c:2511-2541 | Do so after any number of other PRIMITIVEs: the TRANSFORM silently takes the last of those, which it was not linked to. |
| Astray.ClashExists | src/OpenCSM/OpenCSM.c:3859-3867 | There are such models, for every number of PRIMITIVEs before. |
| Astray.InterruptedUnderflows | src/OpenCSM/OpenCSM.c:2348-2374 | With another Branch inside a sketch the check can succeed and the build still meet a Body stack that is too short. |
| Astray.InterruptedExists | src/OpenCSM/OpenCSM.c:2348-2374 | There is such a model. |
| Structured.FindsItsPatend | src/OpenCSM/OpenCSM.c:3107-3120 | The forward search from a patbeg finds the patend of its own loop, past any nested loops. |
| Structured.ShallowProgram | src/OpenCSM/OpenCSM.c:3094-3098 | Loops that nest ten deep at most are never refused for being nested too deeply. |
| Structured.EagerProgram | src/OpenCSM/OpenCSM.c:3094-3098 | If every loop makes a copy and nothing fails, a program of loops is refused for that if and only if more than ten of its loops are inside of one another; otherwise it ends well. |
| Structured.LoopTrace | src/OpenCSM/OpenCSM.c:3091-3180 | A loop over ordinary Branches gives the Parameter of its own patbeg the values from 1 up to the number of copies asked for when it is reached, and runs the Branches after each. |
| Structured.NoPatendIsLeft | src/OpenCSM/OpenCSM.c:3107-3120 | From the start of any program on, and so from a patbeg that is never closed, the search finds nothing. |
| Structured.OpenOnlyAssigns | src/OpenCSM/OpenCSM.c:3121-3153 | A patbeg that is never closed, with at least one copy to make and frames to spare, does no more than give its iterator the value 1: the rest of the program runs once. |
| Builds.UnmatchedPatBeg | src/OpenCSM/OpenCSM.c:3121-3153 | In any state of the loop, at an ACTIVE patbeg without a patend: with no copies to make the next turn is at Branch 0 and fails; otherwise a frame is pushed, the iterator is 1, and the loop goes on behind it. Nothing is reported. |
| Builds.UnmatchedPatBegExists | src/OpenCSM/OpenCSM.c:3121-3124 | There is a model whose only patbeg has no patend and whose build ends well. |
| Jumps.StmtRuns | src/OpenCSM/OpenCSM.c:3031-3180 | One statement, loop or call, of any nesting, is done after finitely many turns of the Branch loop, with the events, the failure and the state that the structured program has. |
| Jumps.CopiesRun | src/OpenCSM/OpenCSM.c:3156-3180 | The patend jumps run the copies of a loop one after another, with the iterator counting up to the number fixed when the loop was entered. |
| Jumps.CallRuns | src/OpenCSM/OpenCSM.c:3055-3089 | A recall runs the body of the macro once, and the macend returns behind the recall. |
| Jumps.BlockRuns | src/OpenCSM/OpenCSM.c:2749-2770 | The same for any sequence of statements. |
| Builds.PassesOver | src/OpenCSM/OpenCSM.c:2759-2764 | The first time past a macro its Branches are awakened and nothing else happens. |
| Builds.ProgramRuns | src/OpenCSM/OpenCSM.c:2749-3180 | From any point of a program on, the rest of the program is what the loop does, failures included. |
| Builds.BuildRunsProgram | src/OpenCSM/OpenCSM.c:2749-3180 | A build of a freshly checked model terminates, and its trace is that of nested loops and inlined macro bodies, with patbegs that are never closed running once; it fails just where and how the structured program fails. |
| Builds.CheckedIsFresh | src/OpenCSM/OpenCSM.c:2546-2556 | What a check leaves is freshly checked in the sense of that theorem, unless it inactivates a Branch that jumps. |
| Builds.BuildOfCheckedModel | src/OpenCSM/OpenCSM.c:2665-3180 | So a checked model with nothing suppressed is built as its program. |
| Builds.SecondBuild | src/OpenCSM/OpenCSM.c:2665-2674 | After a build that ended well, with whatever arguments the next one gives: without a macro the Branches are those of the check again, so that the next build, too, runs its program (which may fail, as Parameters keep their values); with a macro the next build never ends well, since nothing is deferred any more. |
| Nesting.ProgramIffWellNested | src/OpenCSM/OpenCSM.c:3107-3120 | A model is a program with every patbeg closed if and only if patterns nest, inside and outside of macros, and macros do not; a single pass decides it. |
| Nesting.WellNestedModelIsBuilt | src/OpenCSM/OpenCSM.c:2665-3180 | Any well-nested model that passes the check, with nothing suppressed, is built as the program that it is. |
| Builder.Loop.FindPatEnd | src/OpenCSM/OpenCSM.c:3107-3120 | The search loop counts open patterns and stops at the patend that closes the first, or at none. |
| Builder.Loop.MacBeg | src/OpenCSM/OpenCSM.c:3031-3052 | A macro is stored under an index that is still free; an index below 1 or above 100 is refused. |
| Builder.Loop.MacEnd | src/OpenCSM/OpenCSM.c:3055-3060 | The topmost frame is popped, and the loop goes on behind its recall. |
| Builder.Loop.Recall | src/OpenCSM/OpenCSM.c:3063-3088 | A frame is pushed, and the loop goes on behind the macbeg. |
| Builder.Loop.PatBeg | src/OpenCSM/OpenCSM.c:3091-3153 | At most ten frames; no copies are skipped over, otherwise a frame is pushed and the iterator is 1. |
| Builder.Loop.PatEnd | src/OpenCSM/OpenCSM.c:3156-3180 | The iterator counts up and the loop goes back, or the frame is popped. |
| Builder.Loop.Execute | src/OpenCSM/OpenCSM.c:2749-3180 | One turn of the loop, over the arrays, is one step of the machine. |
| Builder.Loop.Build | src/OpenCSM/OpenCSM.c:2714-3180 | The loop over the arrays terminates, with the trace and the failure of the structured program; programs of loops that nest at most ten deep never fail for being nested too deeply, and those that nest deeper do, if every loop makes a copy. |
| Matsol.FindPivot | src/OpenCSM/OpenCSM.c:11814-11823 | The first of the largest entries in the column, on or below the diagonal. |
| Matsol.RowAfterRow | src/OpenCSM/OpenCSM.c:11814-11823 | The matrix is stored rowwise: each entry is followed by the next of its row, and each row by the next. |
| Matsol.SwapRows | src/OpenCSM/OpenCSM.c:11831-11842 | Two rows of matrix and right-hand side change places, and no other entry changes. |
| Matsol.ReduceRow | src/OpenCSM/OpenCSM.c:11846-11856 | A multiple of the pivot row is taken from a row, its column becomes zero, and no other row changes. |
| Matsol.SwappingIsEquivalent | src/OpenCSM/OpenCSM.c:11831-11842 | Exchanging two rows keeps the set of solutions. |
| Matsol.ReducingIsEquivalent | src/OpenCSM/OpenCSM.c:11846-11856 | Taking a multiple of one row from another keeps the set of solutions. |
| Matsol.AtMostOneSolution | src/OpenCSM/OpenCSM.c:11859-11867 | In a system whose first columns are reduced, solutions that agree in the other unknowns are the same. |
| Matsol.BackSubstitute | src/OpenCSM/OpenCSM.c:11859-11867 | Back substitution solves the triangular system, row by row. |
| Matsol.Matsol | src/OpenCSM/OpenCSM.c:11793-11872 | On SUCCESS x is the one and only solution of the system as it was given; the reduced system always has the same solutions; SUCCESS exactly when the matrix was reduced with pivots of at least 1e-12, and a refusal means that a column has only smaller ones. |
| Matsol.ZeroColumnIsSingular | src/OpenCSM/OpenCSM.c:11825-11829 | If the refused column is all zeros, the given system does not have exactly one solution. |
| Matsol.RefusalIsRightIff | src/OpenCSM/OpenCSM.c:11825-11829 | For whatever a refusal at a column leaves: the system as it was given has exactly one solution if and only if the trailing block from that column on has. |
| Matsol.LastRefusalIsRightIff | src/OpenCSM/OpenCSM.c:11825-11829 | At the last column: it has exactly one solution if and only if the refused entry is not zero, however small. |
| Matsol.RefusedButSolvable | src/OpenCSM/OpenCSM.c:11825-11829 | So a refused system need not be singular: 1e-13 x = 1e-13 is refused and has one solution. |
| BrchTable.Table.NewBrch | src/OpenCSM/OpenCSM.c:3384-3735 | A Branch is inserted after the given one under the next number; every error, and what it does to the table, is stated: a bad index or type drops the last Branch, a missing argument drops the last Branch of the new list, and a new Parameter hides a missing argument. |
| BrchTable.ArgumentsByType | src/OpenCSM/OpenCSM.c:3418-3537 | For each type but udprim, how many arguments are asked for; those given among them are kept and no others. |
| BrchTable.PairsOfUdPrim | src/OpenCSM/OpenCSM.c:3445-3451 | A udprim takes its first argument and then pairs, up to the last of the four pairs that is complete. |
| BrchTable.Table.DelBrch | src/OpenCSM/OpenCSM.c:3887-3967 | Exactly the given Branch is removed; a bad index changes nothing. |
| BrchTable.Table.SetName | src/OpenCSM/OpenCSM.c:4587-4640 | A name is given exactly when no Branch has it and it is not reserved; otherwise nothing changes. |
| BrchTable.Copy | src/OpenCSM/OpenCSM.c:1905-2025 | All Branches with their names, arguments, activities and links, under a next number that is still free; fails exactly when some Branch lacks an argument. |
| BrchTable.DeleteUndoesInsert | src/OpenCSM/OpenCSM.c:3938-3962 | Deleting the Branch just inserted restores the list. |
| BrchTable.FailureKeepsTableIff | src/OpenCSM/OpenCSM.c:3731-3734 | A call that fails for its arguments leaves the list as it was if and only if the Branch was to be the last one. |
| BrchTable.NewEntryIsComplete | src/OpenCSM/OpenCSM.c:3615-3695 | A Branch that was added without a missing argument can be copied. |
| BrchTable.NamedAfterInsert | src/OpenCSM/OpenCSM.c:3611-3613 | Numbered names never collide with a name that is there, nor with numbers to come. |
| BrchNames.DefaultNamesDiffer | src/OpenCSM/OpenCSM.c:3612 | Different numbers give different names, at any number of digits. |
| BrchNames.NameIsSpelled | src/OpenCSM/OpenCSM.c:3612 | A numbered name is Brch_ and at least six digits, with no zero in front if there are more. |
| SelectBody.Select | src/OpenCSM/OpenCSM.c:11655-11685 | The position returned is that of the entry which index - 1 entries come before, ties going to the lower position. |
| SelectBody.RankIsUnique | src/OpenCSM/OpenCSM.c:11655-11685 | No two entries have the same rank, so that position is the only one. |
| BodyGraph.Model.NewBody | src/OpenCSM/OpenCSM.c:10290-10360 | Links keep pointing to later Bodys, and only those of the parents change. |
| BodyGraph.Model.LinkSketch | src/OpenCSM/OpenCSM.c:7354-7355 | So they do when a loft takes one more sketch. |
| BodyGraph.Model.Reaches | src/OpenCSM/OpenCSM.c:10853-10866 | The walk along children terminates and finds a Body exactly when it is on the chain. |
| BodyGraph.Model.CommonBody | src/OpenCSM/OpenCSM.c:10836-10888 | The Body found is where both chains merge, also for two Faces of one Body, and -4 comes back exactly when the chains have nothing in common. |
| BodyGraph.FirstCommonIsMerge | src/OpenCSM/OpenCSM.c:10848-10888 | The lowest common Body is where the chains merge: before it they share nothing, from it on everything. |
| BodyGraph.MergeIsUnique | src/OpenCSM/OpenCSM.c:10848-10888 | There is at most one such Body. |
| ViewTree.Tree.AddNode | ESP/ESP.js:1817-1876 | A Node becomes the last child of its parent, with all links as the parents require; a bad parent changes nothing. |
| ViewTree.Tree.Build | ESP/ESP.js:1945-2021 | The walk without a stack terminates and writes the rows in preorder, children in the order in which they were added, with a gap after each top-level Node that has children. |
| ViewTree.Tree.ClimbFrom | ESP/ESP.js:2007-2020 | The climb ends at the next sibling of the nearest Node above that has one. |
| ViewTree.Tree.Clear | ESP/ESP.js:2033-2061 | Only the root is left, without links. |
| ViewTree.Tree.Contract | ESP/ESP.js:2067-2095 | Exactly the Node and, unless it is the root, all Nodes below it are closed; the screen shows what it should. |
| ViewTree.Tree.Expand | ESP/ESP.js:2101-2114 | Exactly the Node is opened; the screen shows what it should. |
| ViewTree.Tree.Update | ESP/ESP.js:2176-2191 | A row is shown if and only if all Nodes above it, but for the root, are open. |
| TreeSpec.EveryNodeOnce | ESP/ESP.js:1945-2021 | Every Node but the root has exactly one row. |
| TreeSpec.RowsCount | ESP/ESP.js:1945-2021 | The rows below a Node, from any child on, are exactly those of the Nodes below it by way of those children. |
| TreeSpec.ContractThenExpand | ESP/ESP.js:2067-2114 | Contracting a shown Node and expanding it again shows, of all Nodes below it, exactly its children. |
| TreeSpec.OthersStay | ESP/ESP.js:2067-2114 | Rows that are not below the Node stay as they are. |
| Picking.Viewer.DrawStrips | ESP/WebViewer/wv-draw.js:19-30 | Strips that are there get consecutive numbers while picking, and none otherwise. |
| Picking.Viewer.TraverseForPicking | ESP/WebViewer/wv-draw.js:326-356 | The k-th strip that can be picked is drawn with number k, over any scene and any mix of attributes. |
| Picking.AllPickableIff | ESP/WebViewer/wv-draw.js:326-356 | What gets a number is just: the strips of a primitive that is on, of its kind; the lines that strips of triangles have of their own, if lines are on; the points that strips of lines or triangles have of their own, if points are on. |
| Picking.Viewer.GetPickedObject | ESP/WebViewer/wv-draw.js:402-516 | Counting through the scene again finds the strip with a number, and nothing for a number that was not given. |
| Picking.Viewer.Pick | ESP/WebViewer/wv-draw.js:564-576 | Two zero bytes are background; any others pick the strip with that number, and only what can be picked. |
| Picking.ReadBackIff | ESP/WebViewer/wv-render.js:375-379 | The two colour bytes give the number back if and only if it is at most 65535. |
| Picking.PickRoundTrip | ESP/WebViewer/wv-draw.js:326-516 | A pixel of any strip numbered up to 65535 picks that strip and no other, and is never background. |
| Picking.PickBeyond | ESP/WebViewer/wv-render.js:375-379 | Beyond that, a strip is taken for an earlier one. |
| SceneRecords.RecordIsAligned | ESP/WebViewer/wv-socket.js:158-345 | Every record takes whole words, and at least one, so the cursor is aligned and advances. |
| SceneStream.OpeningIsRead | ESP/WebViewer/wv-socket.js:160-184 | Opcode, stripe, type, flags and name of any record read back. |
| SceneStream.ReadArray | ESP/WebViewer/wv-socket.js:253-280 | An array of any element size reads back, and the cursor passes what fills its last word. |
| SceneStream.ReadNewStripe | ESP/WebViewer/wv-socket.js:235-292 | All four optional arrays read back, in any combination. |
| SceneStream.ReadEditPrim | ESP/WebViewer/wv-socket.js:293-337 | Kind and data of an update read back. |
| SceneRecords.EditIsLaidOutAsNew | ESP/WebViewer/wv-socket.js:293-337 | An update of vertices, indices, colors or normals has the flags and the bytes that a new stripe with those alone has, and is well formed just when that is. |
| SceneStream.ReadRecord | ESP/WebViewer/wv-socket.js:157-349 | Any well-formed record reads back, and the cursor lands on the next one. |
| SceneStream.Client.ApplyMessage | ESP/WebViewer/wv-socket.js:153-351 | All records of a message are applied, in order, and the cursor that is returned is at the very end of the message. |
| SceneStream.Client.UpdateScene | ESP/WebViewer/wv-socket.js:138-353 | Nothing is applied until the newest message ends a batch; then all queued messages are, in the order in which they came. |
| SceneStream.EndsBatchIff | ESP/WebViewer/wv-socket.js:145-147 | A message ends a batch if and only if the last word of its last record reads as opcode 7, whatever it belongs to. |
| SceneStream.Opcode7EndsBatch | ESP/WebViewer/wv-socket.js:145-147 | A message whose last record has opcode 7 ends a batch. |
| SceneStream.DataCanEndBatch | ESP/WebViewer/wv-socket.js:145-147 | The test looks at bytes, not at records: a message that ends in data can end a batch, too. |

## Left out

- Array subscripts and brackets in expressions, string-valued expressions, and the lexing of single characters into names and numbers: tokens are the input.
- Floating point: rounding, overflow, NaN, and integers too large for their type. Arithmetic is over exact reals, and the C library functions are given as functions, with the laws of square roots where a theorem needs them.
- The stages of a number's text: its value is whatever the C library makes of it.
- Branches of `ocsmCheck` for a missing or foreign model, and allocation failures anywhere.
- BodyStack.FollowsIffServed: models with lofts, marks, macros, patterns, solvers or recalls are linked (`Checker.Model.Check`), but their Body stack is not followed. A dump keeps its Body; dumps that remove it are not in the model.
- Suppression.FollowsIffSound: suppressed GROWN Branches are left to `BodyStack.FollowsIffServed`, and what they leave to `BodyStack.SuppressedGrownLeaves`.
- The limit on the size of the Body stack, on sketches and on solvers.
- Jumps.StmtRuns: what an ordinary Branch does is open; it may fail, and it may depend on all that happened before, but it does not change the list of Branches.
- Builder.Loop.Build: builds of the whole model; stopping after a given Branch is not modelled, nor are the Bodys left on the stack at the end.
- Builder.Loop.Recall: the source does not test whether frames are left; the model stops there with a fault of its own.
- Builder.Loop.PatBeg: the Parameter of the iterator is taken to exist, and its value to be set without error and without the limit of five digits.
- BrchTable.Table.NewBrch: Parameters are not modelled; what becomes of the one that a set or patbeg needs is an input. Attributes are left out, as is the length of a name's buffer.
- BrchTable.Copy: Parameters are in place before the Branches are copied.
- BrchTable.Table.DelBrch: arguments and attributes that are freed.
- SelectBody.Select: where the data come from. An index below 1 or beyond the number of Bodys is for the callers to avoid.
- BodyGraph.Model.NewBody: all of a Body but its link; topology and geometry.
- ViewTree.Tree.Build: names, properties and the elements of the page; rows are Node numbers. The walk begins at Node 1, so there has to be one.
- ViewTree.Tree.Update: the handlers that are attached to rows.
- Picking.Viewer.TraverseForPicking: the drawing itself, and the order in which the browser lists primitives, which is taken to be the same both times; decorations are drawn without a number of their own. Precision of integers in shaders.
- SceneStream.Client.UpdateScene: what records do to the scene; messages that are not well formed; names that are not a whole number of words are padded by the sender.
- SceneStream.ReadRecord: arrays stay bytes; they are not turned into numbers.
- The solver's Newton iteration, sketches, file loading and saving, dialogs, matrices of the viewer, and all geometry.

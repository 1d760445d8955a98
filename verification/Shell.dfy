/** execute_cmd.c: command trees, the world they run in, and what they mean. */
module Shell {

  // ----- command trees -----

  datatype Connector = Sequence | AndAnd | OrOr

  datatype Builtin = External | BreakOut(n: int) | ContinueOn(n: int)

  /** A command; Null is the absent command. The numbers name the nodes of the tree. */
  datatype Command =
    | Null
    | Simple(id: nat, invert: bool, builtin: Builtin)
    | Group(id: nat, invert: bool, body: Command)
    | Pair(id: nat, invert: bool, connector: Connector, first: Command, second: Command)
    | If(id: nat, invert: bool, test: Command, yes: Command, no: Command)
    | While(id: nat, invert: bool, until: bool, test: Command, body: Command)
    | For(id: nat, invert: bool, body: Command)
    | Case(id: nat, invert: bool, clauses: Clauses)

  /** The clauses of a case command: fallThrough is `;&`, testNext is `;;&`. */
  datatype Clauses =
    | NoClauses
    | Clause(name: nat, patterns: nat, action: Command, fallThrough: bool, testNext: bool, next: Clauses)

  // ----- the world -----

  /** What can be observed of a run, in order. */
  datatype Event =
    | Ran(id: nat, ignored: bool, status: int)
    | Expanded(id: nat)
    | Bound(id: nat, k: nat)
    | Tried(clause: nat, pattern: nat)

  type Trace = seq<Event>

  /** Everything outside the control skeleton, as a function of what has happened so far. */
  datatype World = World(
    errexit: bool,
    statusOf: (Trace, nat) -> int,
    isIdentifier: nat -> bool,
    wordCount: (Trace, nat) -> nat,
    binds: (Trace, nat, nat) -> bool,
    matches: (Trace, nat, nat) -> bool)

  const EXECUTION_SUCCESS := 0
  const EXECUTION_FAILURE := 1

  function Negated(invert: bool, status: int): int {
    if !invert then status else if status == EXECUTION_SUCCESS then EXECUTION_FAILURE else EXECUTION_SUCCESS
  }

  // ----- structured semantics -----

  /** How a command hands on control: to what follows, out of n loops, or to the next turn of the n-th loop. */
  datatype Control = Normal | Breaks(n: nat) | Continues(n: nat)

  /** Strays: a loop's test ended the loop while it handed on a continue, which the interpreter does
      not take back: the meaning stops there, see ShellRefinement.TestEndsLoop. */
  datatype Outcome =
    | Ends(trace: Trace, status: int, control: Control)
    | Exits(trace: Trace, status: int)
    | Strays(trace: Trace)
    | OutOfFuel

  function Min(a: int, b: nat): nat
    requires a >= 0
  {
    if a < b then a else b
  }

  /** The status and the control of a simple command at a loop depth. */
  function Effect(w: World, c: Command, depth: nat, trace: Trace): (int, Control)
    requires c.Simple?
  {
    match c.builtin
    case External => (w.statusOf(trace, c.id), Normal)
    case BreakOut(n) =>
      if depth == 0 then (EXECUTION_SUCCESS, Normal)
      else if n <= 0 then (EXECUTION_FAILURE, Breaks(depth))
      else (EXECUTION_SUCCESS, Breaks(Min(n, depth)))
    case ContinueOn(n) =>
      if depth == 0 then (EXECUTION_SUCCESS, Normal)
      else if n <= 0 then (EXECUTION_FAILURE, Breaks(depth))
      else (EXECUTION_SUCCESS, Continues(Min(n, depth)))
  }

  /** Whether failures inside c do not count, when they do not count around c. */
  predicate Ignoring(w: World, c: Command, ignored: bool)
    requires !c.Null?
  {
    ignored || (w.errexit && c.invert)
  }

  /** A command's meaning. ignored says that failures do not count here; depth is the number of loops around;
      fuel bounds the turns of every while loop. */
  function Run(w: World, c: Command, ignored: bool, depth: nat, trace: Trace, fuel: nat): Outcome
    decreases c, 2, 0
  {
    if c.Null? then Ends(trace, EXECUTION_SUCCESS, Normal)
    else Negate(c.invert, RunBody(w, c, Ignoring(w, c, ignored), depth, trace, fuel))
  }

  function Negate(invert: bool, r: Outcome): Outcome {
    if r.Ends? then Ends(r.trace, Negated(invert, r.status), r.control) else r
  }

  function RunBody(w: World, c: Command, ignored: bool, depth: nat, trace: Trace, fuel: nat): Outcome
    requires !c.Null?
    decreases c, 1, 0
  {
    match c
    case Simple(id, invert, _) => RunSimple(w, c, ignored, depth, trace)
    case Group(_, _, body) => Run(w, body, ignored, depth, trace, fuel)
    case Pair(_, _, connector, first, second) =>
      var r := Run(w, first, ignored || connector != Sequence, depth, trace, fuel);
      if r.Ends? && r.control == Normal && GoesOn(connector, r.status) then Run(w, second, ignored, depth, r.trace, fuel)
      else r
    case If(_, _, test, yes, no) =>
      var r := Run(w, test, true, depth, trace, fuel);
      if r.Ends? && r.control == Normal then
        Run(w, if r.status == EXECUTION_SUCCESS then yes else no, ignored, depth, r.trace, fuel)
      else r
    case While(_, _, _, _, _) => RunTurns(w, c, ignored, depth, trace, EXECUTION_SUCCESS, fuel)
    case For(id, _, _) =>
      if !w.isIdentifier(id) then Ends(trace, EXECUTION_FAILURE, Normal)
      else RunWords(w, c, ignored, depth, trace + [Expanded(id)], EXECUTION_SUCCESS, 0, w.wordCount(trace, id), fuel)
    case Case(id, _, clauses) =>
      RunClauses(w, clauses, ignored, depth, Ends(trace + [Expanded(id)], EXECUTION_SUCCESS, Normal), fuel)
  }

  predicate GoesOn(connector: Connector, status: int) {
    match connector
    case Sequence => true
    case AndAnd => status == EXECUTION_SUCCESS
    case OrOr => status != EXECUTION_SUCCESS
  }

  /** A simple command that fails where failures count ends the shell. */
  function RunSimple(w: World, c: Command, ignored: bool, depth: nat, trace: Trace): Outcome
    requires c.Simple?
  {
    var (status, control) := Effect(w, c, depth, trace);
    var after := trace + [Ran(c.id, ignored, status)];
    if w.errexit && !ignored && status != EXECUTION_SUCCESS then Exits(after, status) else Ends(after, status, control)
  }

  /** Leaving one loop. */
  function Outward(control: Control): Control {
    match control
    case Normal => Normal
    case Breaks(n) => if n <= 1 then Normal else Breaks(n - 1)
    case Continues(n) => if n <= 1 then Normal else Continues(n - 1)
  }

  /** After a body that ended with control, the loop goes on to its next turn. */
  predicate NextTurn(control: Control) {
    control == Normal || (control.Continues? && control.n <= 1)
  }

  /** while and until: last is the status of the body's last turn. A test that hands on control and does not end the loop is
      treated as a body that does: a continue of this loop starts the next turn. */
  function RunTurns(w: World, c: Command, ignored: bool, depth: nat, trace: Trace, last: int, fuel: nat): Outcome
    requires c.While?
    decreases c, 0, fuel
  {
    if fuel == 0 then OutOfFuel
    else
      var t := Run(w, c.test, true, depth + 1, trace, fuel);
      if !t.Ends? then t
      else if (t.status == EXECUTION_SUCCESS) == c.until then
        if t.control.Continues? then Strays(t.trace) else Ends(t.trace, last, Outward(t.control))
      else
        var b := if t.control != Normal then t else Run(w, c.body, ignored, depth + 1, t.trace, fuel);
        if !b.Ends? then b
        else if NextTurn(b.control) then RunTurns(w, c, ignored, depth, b.trace, b.status, fuel - 1)
        else Ends(b.trace, b.status, Outward(b.control))
  }

  /** for: word k of n is bound and the body run, unless the variable cannot be assigned. */
  function RunWords(w: World, c: Command, ignored: bool, depth: nat, trace: Trace, last: int, k: nat, n: nat, fuel: nat): Outcome
    requires c.For?
    decreases c, 0, n - k
  {
    if k >= n then Ends(trace, last, Normal)
    else if !w.binds(trace, c.id, k) then Ends(trace, EXECUTION_FAILURE, Normal)
    else
      var b := Run(w, c.body, ignored, depth + 1, trace + [Bound(c.id, k)], fuel);
      if !b.Ends? then b
      else if NextTurn(b.control) then RunWords(w, c, ignored, depth, b.trace, b.status, k + 1, n, fuel)
      else Ends(b.trace, b.status, Outward(b.control))
  }

  /** The first of the patterns from k on that matches, if any, and the trace after the patterns tried. */
  function TryPatterns(w: World, clause: Clauses, k: nat, trace: Trace): (r: (Trace, bool))
    requires clause.Clause?
    decreases clause.patterns - k
  {
    if k >= clause.patterns then (trace, false)
    else
      var tried := trace + [Tried(clause.name, k)];
      if w.matches(trace, clause.name, k) then (tried, true) else TryPatterns(w, clause, k + 1, tried)
  }

  /** case: sofar is what the clauses before these ended with. Once an action has ended with a break or a continue, later
      actions are passed over, while the patterns a `;;&` leads to are still expanded and tried. */
  function RunClauses(w: World, clauses: Clauses, ignored: bool, depth: nat, sofar: Outcome, fuel: nat): Outcome
    decreases clauses, 1, 0
  {
    if clauses.NoClauses? || !sofar.Ends? then sofar
    else
      var (trace, found) := TryPatterns(w, clauses, 0, sofar.trace);
      var tried := Ends(trace, sofar.status, sofar.control);
      if found then RunActions(w, clauses, ignored, depth, tried, fuel)
      else RunClauses(w, clauses.next, ignored, depth, tried, fuel)
  }

  /** The action of a clause whose pattern matched, and those it falls through to. */
  function RunActions(w: World, clauses: Clauses, ignored: bool, depth: nat, sofar: Outcome, fuel: nat): Outcome
    requires clauses.Clause? && sofar.Ends?
    decreases clauses, 0, 0
  {
    var r := if sofar.control != Normal then sofar else Run(w, clauses.action, ignored, depth, sofar.trace, fuel);
    if !r.Ends? then r
    else if clauses.fallThrough then
      if clauses.next.NoClauses? then r else RunActions(w, clauses.next, ignored, depth, r, fuel)
    else if clauses.testNext then RunClauses(w, clauses.next, ignored, depth, r, fuel)
    else r
  }
}

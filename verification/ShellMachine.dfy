/** The interpreter of execute_cmd.c as a machine: control flow in counters, ignored failures as flags written into the
    tree. */
module ShellMachine {
  import opened Shell

  /** The interpreter's global variables; cmdFlags and innerFlags are the nodes whose command, and whose command-specific
      part, carry CMD_IGNORE_RETURN. */
  datatype Machine = Machine(
    trace: Trace, last: int, breaking: nat, continuing: nat, loopLevel: nat, cmdFlags: set<nat>, innerFlags: set<nat>)

  datatype Done = Returned(m: Machine, status: int) | Jumped(m: Machine) | NoFuel

  /** c->flags |= CMD_IGNORE_RETURN, for a command that is there. */
  function Mark(m: Machine, c: Command, mark: bool): Machine {
    if mark && !c.Null? then m.(cmdFlags := m.cmdFlags + {c.id}) else m
  }

  function MarkInner(m: Machine, c: Command, mark: bool): Machine
    requires !c.Null?
  {
    if mark then m.(innerFlags := m.innerFlags + {c.id}) else m
  }

  predicate Unwinding(m: Machine) {
    m.breaking > 0 || m.continuing > 0
  }

  /** execute_command_internal. */
  function Exec(w: World, c: Command, m: Machine, fuel: nat): Done
    decreases c, 2, 0
  {
    if Unwinding(m) then Returned(m, m.last)
    else if c.Null? then Returned(m, EXECUTION_SUCCESS)
    else
      var m0 := Mark(m, c, w.errexit && c.invert);
      Finish(c, ExecBody(w, c, m0, c.id in m0.cmdFlags, fuel))
  }

  /** The end of execute_command_internal: the status is inverted and recorded. */
  function Finish(c: Command, d: Done): Done
    requires !c.Null?
  {
    if d.Returned? then Returned(d.m.(last := Negated(c.invert, d.status)), Negated(c.invert, d.status)) else d
  }

  function ExecBody(w: World, c: Command, m: Machine, ignore: bool, fuel: nat): Done
    requires !c.Null?
    decreases c, 1, 0
  {
    match c
    case Simple(_, _, _) => ExecSimple(w, c, MarkInner(m, c, ignore), ignore)
    case Group(_, _, body) => Exec(w, body, Mark(m, body, ignore), fuel)
    case Pair(_, _, connector, first, second) =>
      if connector == Sequence then
        var d := Exec(w, first, Mark(Mark(m, first, ignore), second, ignore), fuel);
        if d.Returned? then Exec(w, second, d.m, fuel) else d
      else
        var d := Exec(w, first, Mark(m, first, true), fuel);
        if d.Returned? && GoesOn(connector, d.status) then Exec(w, second, Mark(d.m, second, ignore), fuel) else d
    case If(_, _, test, yes, no) =>
      var d := Exec(w, test, Mark(MarkInner(m, c, ignore), test, true), fuel);
      if !d.Returned? then d
      else if d.status == EXECUTION_SUCCESS then Exec(w, yes, Mark(d.m, yes, c.id in d.m.innerFlags), fuel)
      else Exec(w, no, Mark(d.m, no, c.id in d.m.innerFlags), fuel)
    case While(_, _, _, test, body) =>
      var m1 := Mark(MarkInner(m, c, ignore).(loopLevel := m.loopLevel + 1), test, true);
      LeaveLoop(ExecTurns(w, c, Mark(m1, body, c.id in m1.innerFlags), EXECUTION_SUCCESS, fuel))
    case For(id, _, body) =>
      var m1 := MarkInner(m, c, ignore);
      if !w.isIdentifier(id) then Returned(m1, EXECUTION_FAILURE)
      else
        var m2 := m1.(loopLevel := m1.loopLevel + 1, trace := m1.trace + [Expanded(id)]);
        LeaveLoop(ExecWords(w, c, Mark(m2, body, c.id in m2.innerFlags), EXECUTION_SUCCESS, 0, w.wordCount(m.trace, id), fuel))
    case Case(id, _, clauses) =>
      var m1 := MarkInner(m, c, ignore);
      ExecClauses(w, clauses, c.id in m1.innerFlags, m1.(trace := m1.trace + [Expanded(id)]), EXECUTION_SUCCESS, fuel)
  }

  /** loop_level--. */
  function LeaveLoop(d: Done): Done {
    if d.Returned? && d.m.loopLevel > 0 then Returned(d.m.(loopLevel := d.m.loopLevel - 1), d.status) else d
  }

  /** break and continue clamp their argument to loop_level; both set breaking when it is not positive. */
  function RunBuiltin(w: World, c: Command, m: Machine): (r: (int, Machine))
    requires c.Simple?
  {
    match c.builtin
    case External => (w.statusOf(m.trace, c.id), m)
    case BreakOut(n) =>
      if m.loopLevel == 0 then (EXECUTION_SUCCESS, m)
      else if n <= 0 then (EXECUTION_FAILURE, m.(breaking := m.loopLevel))
      else (EXECUTION_SUCCESS, m.(breaking := if n > m.loopLevel then m.loopLevel else n))
    case ContinueOn(n) =>
      if m.loopLevel == 0 then (EXECUTION_SUCCESS, m)
      else if n <= 0 then (EXECUTION_FAILURE, m.(breaking := m.loopLevel))
      else (EXECUTION_SUCCESS, m.(continuing := if n > m.loopLevel then m.loopLevel else n))
  }

  function ExecSimple(w: World, c: Command, m: Machine, ignore: bool): Done
    requires c.Simple?
  {
    var (status, m1) := RunBuiltin(w, c, m);
    var m2 := m1.(trace := m.trace + [Ran(c.id, c.id in m.innerFlags, status)]);
    if !ignore && !c.invert && w.errexit && status != EXECUTION_SUCCESS then Jumped(m2.(last := status))
    else Returned(m2, status)
  }

  function StopBreaking(m: Machine): Machine {
    if m.breaking > 0 then m.(breaking := m.breaking - 1) else m
  }

  /** What a loop does after its body: whether it goes on, and the counters. */
  function AfterBody(m: Machine): (r: (bool, Machine)) {
    if m.breaking > 0 then (false, m.(breaking := m.breaking - 1))
    else if m.continuing > 0 then (m.continuing == 1, m.(continuing := m.continuing - 1))
    else (true, m)
  }

  /** The loop of execute_while_or_until. */
  function ExecTurns(w: World, c: Command, m: Machine, bodyStatus: int, fuel: nat): Done
    requires c.While?
    decreases c, 0, fuel
  {
    if fuel == 0 then NoFuel
    else
      var t := Exec(w, c.test, m, fuel);
      if !t.Returned? then t
      else if (t.status == EXECUTION_SUCCESS) == c.until then Returned(StopBreaking(t.m), bodyStatus)
      else
        var b := Exec(w, c.body, t.m, fuel);
        if !b.Returned? then b
        else
          var (goesOn, m1) := AfterBody(b.m);
          if goesOn then ExecTurns(w, c, m1, b.status, fuel - 1) else Returned(m1, b.status)
  }

  /** The loop of execute_for_command. */
  function ExecWords(w: World, c: Command, m: Machine, retval: int, k: nat, n: nat, fuel: nat): Done
    requires c.For?
    decreases c, 0, n - k
  {
    if k >= n then Returned(m, retval)
    else if !w.binds(m.trace, c.id, k) then Returned(m, EXECUTION_FAILURE)
    else
      var b := Exec(w, c.body, m.(trace := m.trace + [Bound(c.id, k)]), fuel);
      if !b.Returned? then b
      else
        var (goesOn, m1) := AfterBody(b.m);
        if goesOn then ExecWords(w, c, m1, b.status, k + 1, n, fuel) else Returned(m1, b.status)
  }

  /** The loops of execute_case_command. */
  function ExecClauses(w: World, clauses: Clauses, ignore: bool, m: Machine, retval: int, fuel: nat): Done
    decreases clauses, 1, 0
  {
    if clauses.NoClauses? then Returned(m, retval)
    else
      var (trace, found) := TryPatterns(w, clauses, 0, m.trace);
      if found then ExecActions(w, clauses, ignore, m.(trace := trace), fuel)
      else ExecClauses(w, clauses.next, ignore, m.(trace := trace), retval, fuel)
  }

  function ExecActions(w: World, clauses: Clauses, ignore: bool, m: Machine, fuel: nat): Done
    requires clauses.Clause?
    decreases clauses, 0, 0
  {
    var d := Exec(w, clauses.action, Mark(m, clauses.action, ignore), fuel);
    if !d.Returned? then d
    else if clauses.fallThrough then
      if clauses.next.NoClauses? then d else ExecActions(w, clauses.next, ignore, d.m, fuel)
    else if clauses.testNext then ExecClauses(w, clauses.next, ignore, d.m, d.status, fuel)
    else d
  }
}

/** Whole runs of the interpreter: from a fresh machine, with any amount of fuel, with set -e. */
module ShellRuns {
  import opened Shell
  import opened ShellMachine
  import opened ShellRefinement
  import opened ShellTheorems

  // ----- fuel -----

  /** With more fuel a run that ends stays the same. */
  lemma {:induction false} MoreFuel(w: World, c: Command, ignored: bool, depth: nat, trace: Trace, fuel: nat, more: nat)
    requires fuel <= more && !Run(w, c, ignored, depth, trace, fuel).OutOfFuel?
    ensures Run(w, c, ignored, depth, trace, more) == Run(w, c, ignored, depth, trace, fuel)
    decreases c, 1, 0
  {
    hide RunTurns;
    hide RunWords;
    hide RunClauses;
    if !c.Null? {
      var i := Ignoring(w, c, ignored);
      match c {
        case Simple(_, _, _) =>
        case Group(_, _, body) => MoreFuel(w, body, i, depth, trace, fuel, more);
        case Pair(_, _, connector, first, second) =>
          MoreFuel(w, first, i || connector != Sequence, depth, trace, fuel, more);
          var r := Run(w, first, i || connector != Sequence, depth, trace, fuel);
          if r.Ends? && r.control == Normal && GoesOn(connector, r.status) {
            MoreFuel(w, second, i, depth, r.trace, fuel, more);
          }
        case If(_, _, test, yes, no) =>
          MoreFuel(w, test, true, depth, trace, fuel, more);
          var r := Run(w, test, true, depth, trace, fuel);
          if r.Ends? && r.control == Normal {
            MoreFuel(w, if r.status == EXECUTION_SUCCESS then yes else no, i, depth, r.trace, fuel, more);
          }
        case While(_, _, _, _, _) => MoreFuelTurns(w, c, i, depth, trace, EXECUTION_SUCCESS, fuel, more);
        case For(id, _, _) =>
          if w.isIdentifier(id) {
            MoreFuelWords(w, c, i, depth, trace + [Expanded(id)], EXECUTION_SUCCESS, 0, w.wordCount(trace, id), fuel, more);
          }
        case Case(id, _, clauses) =>
          MoreFuelClauses(w, clauses, i, depth, Ends(trace + [Expanded(id)], EXECUTION_SUCCESS, Normal), fuel, more);
      }
    }
  }

  lemma {:induction false} MoreFuelTurns(w: World, c: Command, i: bool, depth: nat, trace: Trace, last: int, fuel: nat, more: nat)
    requires c.While? && fuel <= more && !RunTurns(w, c, i, depth, trace, last, fuel).OutOfFuel?
    ensures RunTurns(w, c, i, depth, trace, last, more) == RunTurns(w, c, i, depth, trace, last, fuel)
    decreases c, 0, fuel
  {
    hide Run;
    MoreFuel(w, c.test, true, depth + 1, trace, fuel, more);
    var t := Run(w, c.test, true, depth + 1, trace, fuel);
    if t.Ends? && (t.status == EXECUTION_SUCCESS) != c.until {
      if t.control == Normal {
        MoreFuel(w, c.body, i, depth + 1, t.trace, fuel, more);
      }
      var b := if t.control != Normal then t else Run(w, c.body, i, depth + 1, t.trace, fuel);
      if b.Ends? && NextTurn(b.control) {
        MoreFuelTurns(w, c, i, depth, b.trace, b.status, fuel - 1, more - 1);
      }
    }
  }

  lemma {:induction false} MoreFuelWords(w: World, c: Command, i: bool, depth: nat, trace: Trace, last: int, k: nat, n: nat,
                                         fuel: nat, more: nat)
    requires c.For? && fuel <= more && !RunWords(w, c, i, depth, trace, last, k, n, fuel).OutOfFuel?
    ensures RunWords(w, c, i, depth, trace, last, k, n, more) == RunWords(w, c, i, depth, trace, last, k, n, fuel)
    decreases c, 0, n - k
  {
    hide Run;
    if k < n && w.binds(trace, c.id, k) {
      MoreFuel(w, c.body, i, depth + 1, trace + [Bound(c.id, k)], fuel, more);
      var b := Run(w, c.body, i, depth + 1, trace + [Bound(c.id, k)], fuel);
      if b.Ends? && NextTurn(b.control) {
        MoreFuelWords(w, c, i, depth, b.trace, b.status, k + 1, n, fuel, more);
      }
    }
  }

  lemma {:induction false} MoreFuelClauses(w: World, clauses: Clauses, i: bool, depth: nat, sofar: Outcome, fuel: nat, more: nat)
    requires fuel <= more && !RunClauses(w, clauses, i, depth, sofar, fuel).OutOfFuel?
    ensures RunClauses(w, clauses, i, depth, sofar, more) == RunClauses(w, clauses, i, depth, sofar, fuel)
    decreases clauses, 1, 0
  {
    hide RunActions;
    hide TryPatterns;
    if clauses.Clause? && sofar.Ends? {
      var (trace, found) := TryPatterns(w, clauses, 0, sofar.trace);
      var tried := Ends(trace, sofar.status, sofar.control);
      if found {
        MoreFuelActions(w, clauses, i, depth, tried, fuel, more);
      } else {
        MoreFuelClauses(w, clauses.next, i, depth, tried, fuel, more);
      }
    }
  }

  lemma {:induction false} MoreFuelActions(w: World, clauses: Clauses, i: bool, depth: nat, sofar: Outcome, fuel: nat, more: nat)
    requires clauses.Clause? && sofar.Ends? && fuel <= more && !RunActions(w, clauses, i, depth, sofar, fuel).OutOfFuel?
    ensures RunActions(w, clauses, i, depth, sofar, more) == RunActions(w, clauses, i, depth, sofar, fuel)
    decreases clauses, 0, 0
  {
    hide Run;
    hide RunClauses;
    if sofar.control == Normal {
      MoreFuel(w, clauses.action, i, depth, sofar.trace, fuel, more);
    }
    var r := if sofar.control != Normal then sofar else Run(w, clauses.action, i, depth, sofar.trace, fuel);
    if r.Ends? {
      if clauses.fallThrough {
        if clauses.next.Clause? {
          MoreFuelActions(w, clauses.next, i, depth, r, fuel, more);
        }
      } else if clauses.testNext {
        MoreFuelClauses(w, clauses.next, i, depth, r, fuel, more);
      }
    }
  }

  // ----- from a fresh machine -----

  /** The interpreter before its first command: no loop around, nothing unwound, no flag in the tree. */
  function Fresh(trace: Trace, last: int): Machine {
    Machine(trace, last, 0, 0, 0, {}, {})
  }

  lemma {:induction false} NoFlagsAreSound(w: World, c: Command, ignored: bool)
    ensures Sound(w, c, ignored, {}, {})
    decreases c
  {
    if !c.Null? {
      var i := Ignoring(w, c, ignored);
      match c {
        case Simple(_, _, _) =>
        case Group(_, _, body) => NoFlagsAreSound(w, body, i);
        case Pair(_, _, connector, first, second) =>
          NoFlagsAreSound(w, first, i || connector != Sequence);
          NoFlagsAreSound(w, second, i);
        case If(_, _, test, yes, no) =>
          NoFlagsAreSound(w, test, true);
          NoFlagsAreSound(w, yes, i);
          NoFlagsAreSound(w, no, i);
        case While(_, _, _, test, body) =>
          NoFlagsAreSound(w, test, true);
          NoFlagsAreSound(w, body, i);
        case For(_, _, body) => NoFlagsAreSound(w, body, i);
        case Case(_, _, clauses) => NoClauseFlagsAreSound(w, clauses, i);
      }
    }
  }

  lemma {:induction false} NoClauseFlagsAreSound(w: World, clauses: Clauses, ignored: bool)
    ensures SoundClauses(w, clauses, ignored, {}, {})
    decreases clauses
  {
    if clauses.Clause? {
      NoFlagsAreSound(w, clauses.action, ignored);
      NoClauseFlagsAreSound(w, clauses.next, ignored);
    }
  }

  /** A whole run: trace and status are those of the structured meaning, the exit under set -e included, and at the end no
      break or continue is left pending and loop_level is 0 again, unless a loop's test ended the loop while a continue was
      pending. */
  lemma InterpreterIsCorrect(w: World, c: Command, trace: Trace, last: int, fuel: nat)
    requires Numbered(c) && Complete(c)
    ensures match Run(w, c, false, 0, trace, fuel)
            case OutOfFuel => Exec(w, c, Fresh(trace, last), fuel).NoFuel?
            case Strays(_) => true
            case Exits(after, status) =>
              var d := Exec(w, c, Fresh(trace, last), fuel);
              d.Jumped? && d.m.trace == after && d.m.last == status
            case Ends(after, status, control) =>
              var d := Exec(w, c, Fresh(trace, last), fuel);
              && d.Returned? && d.status == status && d.m.trace == after && control == Normal
              && d.m.breaking == 0 && d.m.continuing == 0 && d.m.loopLevel == 0
              && Sound(w, c, false, d.m.cmdFlags, d.m.innerFlags)
  {
    hide Exec;
    hide Run;
    NoFlagsAreSound(w, c, false);
    Refines(w, c, false, Fresh(trace, last), fuel);
  }

  /** set -e: the interpreter, which keeps its flags in the tree, jumps out at the first simple command that fails outside
      every shield, with that command's status, and otherwise runs to the end. */
  lemma InterpreterStopsAtFirstFailure(w: World, c: Command, trace: Trace, last: int, fuel: nat)
    requires w.errexit && Numbered(c) && Complete(c) && !Run(w, c, false, 0, trace, fuel).Strays?
    ensures var d := Exec(w, c, Fresh(trace, last), fuel);
            && (d.Returned? ==> forall k :: |trace| <= k < |d.m.trace| ==> !FailsInTheOpen(w, c, d.m.trace[k]))
            && (d.Jumped? ==>
                  && |d.m.trace| > |trace| && FailsInTheOpen(w, c, d.m.trace[|d.m.trace| - 1])
                  && d.m.last == d.m.trace[|d.m.trace| - 1].status
                  && forall k :: |trace| <= k < |d.m.trace| - 1 ==> !FailsInTheOpen(w, c, d.m.trace[k]))
  {
    hide Exec;
    hide Run;
    hide Shielded;
    hide Numbered;
    hide Complete;
    InterpreterIsCorrect(w, c, trace, last, fuel);
    RunStopsAtFirstFailure(w, c, false, 0, trace, fuel);
    IgnoredByPlace(w, c, false, 0, trace, fuel);
  }

  predicate FailsInTheOpen(w: World, c: Command, e: Event) {
    e.Ran? && e.id !in Shielded(w, c, false) && e.status != EXECUTION_SUCCESS
  }

  // ----- continue in a loop's test -----

  /** `while continue; do body; done`: while the test succeeds with its continue pending, the loop only takes turns. */
  lemma {:induction false} ContinueInTestTurns(w: World, body: Command, ignored: bool, depth: nat, trace: Trace, last: int,
                                               fuel: nat)
    ensures RunTurns(w, While(0, false, false, Simple(1, false, ContinueOn(1)), body), ignored, depth, trace, last, fuel).OutOfFuel?
    decreases fuel
  {
    if fuel > 0 {
      ContinueInTestTurns(w, body, ignored, depth, trace + [Ran(1, true, EXECUTION_SUCCESS)], EXECUTION_SUCCESS, fuel - 1);
    }
  }

  /** `while ! continue; do body; done` */
  function ContinueInTest(body: Command): Command {
    While(0, false, false, Simple(1, true, ContinueOn(1)), body)
  }

  /** A continue that leaves a loop's test is not taken back when the test ends the loop: after the loop it is still pending,
      beyond loop_level, and every later command is skipped. */
  lemma ContinueInTestLeaks(w: World, body: Command, trace: Trace, last: int, fuel: nat, later: Command)
    requires fuel > 0
    ensures var d := Exec(w, ContinueInTest(body), Fresh(trace, last), fuel);
            && d.Returned? && d.m.continuing == 1 && d.m.loopLevel == 0
            && Exec(w, later, d.m, fuel) == Returned(d.m, d.m.last)
  {
    var m := Fresh(trace, last);
    var c := ContinueInTest(body);
    var m2 := Mark(m.(loopLevel := 1), c.test, true);
    var t := Exec(w, c.test, m2, fuel);
    assert t.Returned? && t.status == EXECUTION_FAILURE && t.m.continuing == 1 && t.m.breaking == 0 && t.m.loopLevel == 1;
    assert ExecTurns(w, c, m2, EXECUTION_SUCCESS, fuel) == Returned(t.m, EXECUTION_SUCCESS);
    assert ExecBody(w, c, m, false, fuel) == Returned(t.m.(loopLevel := 0), EXECUTION_SUCCESS);
  }
}

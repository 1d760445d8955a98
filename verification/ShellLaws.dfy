/** Laws of commands that do not name the tables the semantics and the machine share. */
module ShellLaws {
  import opened Shell
  import opened ShellMachine

  // ----- and-or lists -----

  /** `a && b` runs b exactly when a's status is 0, `a || b` exactly when it is not; otherwise a is all there is. */
  lemma AndOrLists(w: World, id: nat, first: Command, second: Command, ignored: bool, depth: nat, trace: Trace, fuel: nat)
    ensures var a := Run(w, first, true, depth, trace, fuel);
            var both, either := Run(w, Pair(id, false, AndAnd, first, second), ignored, depth, trace, fuel),
                                Run(w, Pair(id, false, OrOr, first, second), ignored, depth, trace, fuel);
            if !a.Ends? || a.control != Normal then both == either == a
            else
              var b := Run(w, second, ignored, depth, a.trace, fuel);
              both == (if a.status == 0 then b else a) && either == (if a.status == 0 then a else b)
  {
    hide Run;
    PairRuns(w, id, AndAnd, first, second, ignored, depth, trace, fuel);
    PairRuns(w, id, OrOr, first, second, ignored, depth, trace, fuel);
  }

  lemma PairRuns(w: World, id: nat, connector: Connector, first: Command, second: Command, ignored: bool, depth: nat,
                 trace: Trace, fuel: nat)
    requires connector != Sequence
    ensures var r := Run(w, first, true, depth, trace, fuel);
            Run(w, Pair(id, false, connector, first, second), ignored, depth, trace, fuel) ==
              if r.Ends? && r.control == Normal && GoesOn(connector, r.status) then Run(w, second, ignored, depth, r.trace, fuel)
              else r
  {
    hide GoesOn;
  }

  /** The machine does the same: a command that has come back with status 0 is followed by the right side of `&&`, one with
      another status by the right side of `||`. */
  lemma MachineAndOr(w: World, id: nat, first: Command, second: Command, m: Machine, fuel: nat)
    requires !Unwinding(m)
    ensures var a := Exec(w, first, Mark(m, first, true), fuel);
            var ignore := id in m.cmdFlags;
            var both, either := Exec(w, Pair(id, false, AndAnd, first, second), m, fuel),
                                Exec(w, Pair(id, false, OrOr, first, second), m, fuel);
            if !a.Returned? then both == either == a
            else
              var b := Exec(w, second, Mark(a.m, second, ignore), fuel);
              both == Recorded(if a.status == 0 then b else a) && either == Recorded(if a.status == 0 then a else b)
  {
    hide Exec;
    PairExecs(w, id, AndAnd, first, second, m, fuel);
    PairExecs(w, id, OrOr, first, second, m, fuel);
  }

  /** A command's status goes into last_command_exit_value. */
  function Recorded(d: Done): Done {
    if d.Returned? then Returned(d.m.(last := d.status), d.status) else d
  }

  lemma PairExecs(w: World, id: nat, connector: Connector, first: Command, second: Command, m: Machine, fuel: nat)
    requires !Unwinding(m) && connector != Sequence
    ensures var a := Exec(w, first, Mark(m, first, true), fuel);
            Exec(w, Pair(id, false, connector, first, second), m, fuel) ==
              Recorded(if a.Returned? && GoesOn(connector, a.status)
                       then Exec(w, second, Mark(a.m, second, id in m.cmdFlags), fuel) else a)
  {
    hide GoesOn;
  }

  // ----- inverted commands -----

  /** The same command with and without the `!` in front of it. */
  function With(c: Command, invert: bool): Command {
    match c
    case Null => Null
    case Simple(id, _, builtin) => Simple(id, invert, builtin)
    case Group(id, _, body) => Group(id, invert, body)
    case Pair(id, _, connector, first, second) => Pair(id, invert, connector, first, second)
    case If(id, _, test, yes, no) => If(id, invert, test, yes, no)
    case While(id, _, until, test, body) => While(id, invert, until, test, body)
    case For(id, _, body) => For(id, invert, body)
    case Case(id, _, clauses) => Case(id, invert, clauses)
  }

  /** `! c` has status 0 exactly when c, run where failures do not count, has not; it is 1 otherwise, and the trace and what is
      handed on are c's. */
  lemma Inverted(w: World, c: Command, ignored: bool, depth: nat, trace: Trace, fuel: nat)
    requires !c.Null?
    ensures var plain := Run(w, With(c, false), ignored || w.errexit, depth, trace, fuel);
            Run(w, With(c, true), ignored, depth, trace, fuel) ==
              if plain.Ends? then Ends(plain.trace, if plain.status == 0 then 1 else 0, plain.control) else plain
  {
    hide RunTurns;
    hide RunWords;
    match c {
      case While(_, _, _, _, _) =>
        TurnsIgnoreInversion(w, c, ignored || w.errexit, depth, trace, EXECUTION_SUCCESS, fuel);
      case For(id, _, _) =>
        WordsIgnoreInversion(w, c, ignored || w.errexit, depth, trace + [Expanded(id)], EXECUTION_SUCCESS, 0,
                             w.wordCount(trace, id), fuel);
      case _ =>
    }
  }

  lemma {:induction false} TurnsIgnoreInversion(w: World, c: Command, ignored: bool, depth: nat, trace: Trace, last: int,
                                                fuel: nat)
    requires c.While?
    ensures RunTurns(w, With(c, true), ignored, depth, trace, last, fuel)
         == RunTurns(w, With(c, false), ignored, depth, trace, last, fuel)
    decreases fuel
  {
    hide Run;
    if fuel > 0 {
      var t := Run(w, c.test, true, depth + 1, trace, fuel);
      if t.Ends? {
        var b := if t.control != Normal then t else Run(w, c.body, ignored, depth + 1, t.trace, fuel);
        if b.Ends? {
          TurnsIgnoreInversion(w, c, ignored, depth, b.trace, b.status, fuel - 1);
        }
      }
    }
  }

  lemma {:induction false} WordsIgnoreInversion(w: World, c: Command, ignored: bool, depth: nat, trace: Trace, last: int,
                                                k: nat, n: nat, fuel: nat)
    requires c.For?
    ensures RunWords(w, With(c, true), ignored, depth, trace, last, k, n, fuel)
         == RunWords(w, With(c, false), ignored, depth, trace, last, k, n, fuel)
    decreases n - k
  {
    hide Run;
    if k < n {
      var b := Run(w, c.body, ignored, depth + 1, trace + [Bound(c.id, k)], fuel);
      if b.Ends? {
        WordsIgnoreInversion(w, c, ignored, depth, b.trace, b.status, k + 1, n, fuel);
      }
    }
  }

  // ----- patterns -----

  /** The first n patterns of a clause are tried one after the other. */
  function Attempts(name: nat, n: nat): Trace {
    seq(n, i requires 0 <= i => Tried(name, i))
  }

  /** Pattern j matches when those before it have been tried. */
  predicate Matches(w: World, name: nat, trace: Trace, j: nat) {
    w.matches(trace + Attempts(name, j), name, j)
  }

  predicate NoneBefore(w: World, name: nat, trace: Trace, n: nat) {
    forall i :: 0 <= i < n ==> !Matches(w, name, trace, i)
  }

  /** A clause is chosen exactly when one of its patterns matches; the patterns up to the first match are tried, or all. */
  lemma PatternsTried(w: World, clause: Clauses, trace: Trace) returns (j: nat)
    requires clause.Clause?
    ensures j <= clause.patterns && NoneBefore(w, clause.name, trace, j)
    ensures if j < clause.patterns
            then
              && Matches(w, clause.name, trace, j)
              && TryPatterns(w, clause, 0, trace) == (trace + Attempts(clause.name, j + 1), true)
            else TryPatterns(w, clause, 0, trace) == (trace + Attempts(clause.name, j), false)
  {
    assert trace + Attempts(clause.name, 0) == trace;
    j := PatternsTriedFrom(w, clause, 0, trace);
  }

  lemma {:induction false} PatternsTriedFrom(w: World, clause: Clauses, k: nat, trace: Trace) returns (j: nat)
    requires clause.Clause? && k <= clause.patterns && NoneBefore(w, clause.name, trace, k)
    ensures k <= j <= clause.patterns && NoneBefore(w, clause.name, trace, j)
    ensures var r := TryPatterns(w, clause, k, trace + Attempts(clause.name, k));
            if j < clause.patterns then Matches(w, clause.name, trace, j) && r == (trace + Attempts(clause.name, j + 1), true)
            else r == (trace + Attempts(clause.name, j), false)
    decreases clause.patterns - k
  {
    var before := trace + Attempts(clause.name, k);
    assert before + [Tried(clause.name, k)] == trace + Attempts(clause.name, k + 1);
    j := k;
    if k < clause.patterns && !Matches(w, clause.name, trace, k) {
      j := PatternsTriedFrom(w, clause, k + 1, trace);
    }
  }
}

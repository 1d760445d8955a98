/** What the structured meaning says about set -e, about fuel, and about whole runs of the interpreter. */
module ShellTheorems {
  import opened Shell
  import opened ShellMachine
  import opened ShellRefinement

  // ----- set -e -----

  /** A simple command failed where failures count. */
  predicate Fatal(e: Event) {
    e.Ran? && !e.ignored && e.status != EXECUTION_SUCCESS
  }

  /** after continues before, without a fatal event under set -e. */
  predicate Safe(w: World, before: Trace, after: Trace) {
    before <= after && (w.errexit ==> forall k :: |before| <= k < |after| ==> !Fatal(after[k]))
  }

  /** The shell exits at the first fatal event, with its status, and only there. */
  predicate StopsAtFirst(w: World, before: Trace, r: Outcome) {
    match r
    case OutOfFuel => true
    case Ends(trace, _, _) => Safe(w, before, trace)
    case Strays(trace) => Safe(w, before, trace)
    case Exits(trace, status) =>
      && w.errexit && |trace| > 0 && Safe(w, before, trace[..|trace| - 1])
      && Fatal(trace[|trace| - 1]) && trace[|trace| - 1].status == status
  }

  lemma SafeSame(w: World, a: Trace)
    ensures Safe(w, a, a)
  {
  }

  /** What is reached safely, or by an event that is no command, can be gone on from. */
  lemma SafeThen(w: World, a: Trace, b: Trace, r: Outcome)
    requires Safe(w, a, b) || (|b| == |a| + 1 && a <= b && !b[|a|].Ran?)
    requires StopsAtFirst(w, b, r)
    ensures StopsAtFirst(w, a, r)
  {
  }

  /** Under set -e the shell exits at the first simple command that fails where failures count, and at no other place;
      without it, it never exits. */
  lemma {:induction false} RunStopsAtFirstFailure(w: World, c: Command, ignored: bool, depth: nat, trace: Trace, fuel: nat)
    ensures StopsAtFirst(w, trace, Run(w, c, ignored, depth, trace, fuel))
    decreases c, 1, 0
  {
    hide RunTurns;
    hide RunWords;
    hide RunClauses;
    hide Safe;
    if c.Null? {
      SafeSame(w, trace);
    } else {
      var i := Ignoring(w, c, ignored);
      match c {
        case Simple(_, _, _) => SimpleEnds(w, c, i, depth, trace);
        case Group(_, _, body) => RunStopsAtFirstFailure(w, body, i, depth, trace, fuel);
        case Pair(_, _, connector, first, second) =>
          var r := Run(w, first, i || connector != Sequence, depth, trace, fuel);
          RunStopsAtFirstFailure(w, first, i || connector != Sequence, depth, trace, fuel);
          if r.Ends? {
            RunStopsAtFirstFailure(w, second, i, depth, r.trace, fuel);
            SafeThen(w, trace, r.trace, Run(w, second, i, depth, r.trace, fuel));
          }
        case If(_, _, test, yes, no) =>
          var r := Run(w, test, true, depth, trace, fuel);
          RunStopsAtFirstFailure(w, test, true, depth, trace, fuel);
          if r.Ends? {
            var part := if r.status == EXECUTION_SUCCESS then yes else no;
            RunStopsAtFirstFailure(w, part, i, depth, r.trace, fuel);
            SafeThen(w, trace, r.trace, Run(w, part, i, depth, r.trace, fuel));
          }
        case While(_, _, _, _, _) => TurnsStop(w, c, i, depth, trace, EXECUTION_SUCCESS, fuel);
        case For(id, _, _) =>
          SafeSame(w, trace);
          WordsStop(w, c, i, depth, trace + [Expanded(id)], EXECUTION_SUCCESS, 0, w.wordCount(trace, id), fuel);
          SafeThen(w, trace, trace + [Expanded(id)], RunWords(w, c, i, depth, trace + [Expanded(id)], EXECUTION_SUCCESS, 0, w.wordCount(trace, id), fuel));
        case Case(id, _, clauses) =>
          var start := Ends(trace + [Expanded(id)], EXECUTION_SUCCESS, Normal);
          SafeSame(w, trace + [Expanded(id)]);
          ClausesStop(w, clauses, i, depth, trace + [Expanded(id)], start, fuel);
          SafeThen(w, trace, trace + [Expanded(id)], RunClauses(w, clauses, i, depth, start, fuel));
      }
    }
  }

  lemma SimpleEnds(w: World, c: Command, ignored: bool, depth: nat, trace: Trace)
    requires c.Simple?
    ensures StopsAtFirst(w, trace, RunSimple(w, c, ignored, depth, trace))
    ensures RunsPlaced({c.id}, if ignored then {c.id} else {}, trace, RunSimple(w, c, ignored, depth, trace))
  {
    var status := Effect(w, c, depth, trace).0;
    assert (trace + [Ran(c.id, ignored, status)])[..|trace|] == trace;
  }

  lemma {:induction false} TurnsStop(w: World, c: Command, ignored: bool, depth: nat, trace: Trace, last: int, fuel: nat)
    requires c.While?
    ensures StopsAtFirst(w, trace, RunTurns(w, c, ignored, depth, trace, last, fuel))
    decreases c, 0, fuel
  {
    hide Run;
    hide Safe;
    if fuel > 0 {
      var t := Run(w, c.test, true, depth + 1, trace, fuel);
      RunStopsAtFirstFailure(w, c.test, true, depth + 1, trace, fuel);
      if t.Ends? {
        RunStopsAtFirstFailure(w, c.body, ignored, depth + 1, t.trace, fuel);
        SafeThen(w, trace, t.trace, Run(w, c.body, ignored, depth + 1, t.trace, fuel));
        var b := if t.control != Normal then t else Run(w, c.body, ignored, depth + 1, t.trace, fuel);
        if b.Ends? {
          TurnsStop(w, c, ignored, depth, b.trace, b.status, fuel - 1);
          SafeThen(w, trace, b.trace, RunTurns(w, c, ignored, depth, b.trace, b.status, fuel - 1));
        }
      }
    }
  }

  lemma {:induction false} WordsStop(w: World, c: Command, ignored: bool, depth: nat, trace: Trace, last: int, k: nat,
                                     n: nat, fuel: nat)
    requires c.For?
    ensures StopsAtFirst(w, trace, RunWords(w, c, ignored, depth, trace, last, k, n, fuel))
    decreases c, 0, n - k
  {
    hide Run;
    hide Safe;
    SafeSame(w, trace);
    SafeSame(w, trace);
    if k < n && w.binds(trace, c.id, k) {
      var bound := trace + [Bound(c.id, k)];
      var b := Run(w, c.body, ignored, depth + 1, bound, fuel);
      RunStopsAtFirstFailure(w, c.body, ignored, depth + 1, bound, fuel);
      SafeThen(w, trace, trace + [Bound(c.id, k)], b);
      if b.Ends? {
        WordsStop(w, c, ignored, depth, b.trace, b.status, k + 1, n, fuel);
        SafeThen(w, trace, b.trace, RunWords(w, c, ignored, depth, b.trace, b.status, k + 1, n, fuel));
      }
    }
  }

  lemma {:induction false} TriedIsSafe(w: World, clause: Clauses, k: nat, before: Trace, trace: Trace)
    requires clause.Clause? && Safe(w, before, trace)
    ensures Safe(w, before, TryPatterns(w, clause, k, trace).0)
    decreases clause.patterns - k
  {
    if k < clause.patterns {
      TriedIsSafe(w, clause, k + 1, before, trace + [Tried(clause.name, k)]);
    }
  }

  lemma {:induction false} ClausesStop(w: World, clauses: Clauses, ignored: bool, depth: nat, trace: Trace, sofar: Outcome,
                                       fuel: nat)
    requires StopsAtFirst(w, trace, sofar)
    ensures StopsAtFirst(w, trace, RunClauses(w, clauses, ignored, depth, sofar, fuel))
    decreases clauses, 1, 0
  {
    hide RunActions;
    hide TryPatterns;
    if clauses.Clause? && sofar.Ends? {
      TriedIsSafe(w, clauses, 0, trace, sofar.trace);
      var (after, found) := TryPatterns(w, clauses, 0, sofar.trace);
      var tried := Ends(after, sofar.status, sofar.control);
      if found {
        ActionsStop(w, clauses, ignored, depth, trace, tried, fuel);
      } else {
        ClausesStop(w, clauses.next, ignored, depth, trace, tried, fuel);
      }
    }
  }

  lemma {:induction false} ActionsStop(w: World, clauses: Clauses, ignored: bool, depth: nat, trace: Trace, sofar: Outcome,
                                       fuel: nat)
    requires clauses.Clause? && sofar.Ends? && StopsAtFirst(w, trace, sofar)
    ensures StopsAtFirst(w, trace, RunActions(w, clauses, ignored, depth, sofar, fuel))
    decreases clauses, 0, 0
  {
    hide Run;
    hide RunClauses;
    hide Safe;
    RunStopsAtFirstFailure(w, clauses.action, ignored, depth, sofar.trace, fuel);
    SafeThen(w, trace, sofar.trace, Run(w, clauses.action, ignored, depth, sofar.trace, fuel));
    var r := if sofar.control != Normal then sofar else Run(w, clauses.action, ignored, depth, sofar.trace, fuel);
    if r.Ends? {
      if clauses.fallThrough && clauses.next.Clause? {
        ActionsStop(w, clauses.next, ignored, depth, trace, r, fuel);
      }
      ClausesStop(w, clauses.next, ignored, depth, trace, r, fuel);
    }
  }

  // ----- where failures do not count -----

  /** The simple commands of c that stand inside a loop's or if's test, left of `&&` or `||`, under `!` (with set -e), or
      anywhere in c when failures do not count around it. */
  function Shielded(w: World, c: Command, ignored: bool): set<nat> {
    if c.Null? then {}
    else
      var i := Ignoring(w, c, ignored);
      match c
      case Simple(id, _, _) => if i then {id} else {}
      case Group(_, _, body) => Shielded(w, body, i)
      case Pair(_, _, connector, first, second) => Shielded(w, first, i || connector != Sequence) + Shielded(w, second, i)
      case If(_, _, test, yes, no) => Shielded(w, test, true) + Shielded(w, yes, i) + Shielded(w, no, i)
      case While(_, _, _, test, body) => Shielded(w, test, true) + Shielded(w, body, i)
      case For(_, _, body) => Shielded(w, body, i)
      case Case(_, _, clauses) => ShieldedClauses(w, clauses, i)
  }

  function ShieldedClauses(w: World, clauses: Clauses, ignored: bool): set<nat> {
    if clauses.NoClauses? then {} else Shielded(w, clauses.action, ignored) + ShieldedClauses(w, clauses.next, ignored)
  }

  lemma {:induction false} ShieldedAreIds(w: World, c: Command, ignored: bool)
    ensures Shielded(w, c, ignored) <= Ids(c)
    decreases c
  {
    if !c.Null? {
      var i := Ignoring(w, c, ignored);
      match c {
        case Simple(_, _, _) =>
        case Group(_, _, body) => ShieldedAreIds(w, body, i);
        case Pair(_, _, connector, first, second) =>
          ShieldedAreIds(w, first, i || connector != Sequence);
          ShieldedAreIds(w, second, i);
        case If(_, _, test, yes, no) =>
          ShieldedAreIds(w, test, true);
          ShieldedAreIds(w, yes, i);
          ShieldedAreIds(w, no, i);
        case While(_, _, _, test, body) =>
          ShieldedAreIds(w, test, true);
          ShieldedAreIds(w, body, i);
        case For(_, _, body) => ShieldedAreIds(w, body, i);
        case Case(_, _, clauses) => ShieldedClausesAreIds(w, clauses, i);
      }
    }
  }

  lemma {:induction false} ShieldedClausesAreIds(w: World, clauses: Clauses, ignored: bool)
    ensures ShieldedClauses(w, clauses, ignored) <= ClauseIds(clauses)
    decreases clauses
  {
    if clauses.Clause? {
      ShieldedAreIds(w, clauses.action, ignored);
      ShieldedClausesAreIds(w, clauses.next, ignored);
    }
  }

  /** Every simple command run since before is one of ids, run as ignored exactly when it is one of shielded. */
  predicate Placed(ids: set<nat>, shielded: set<nat>, before: Trace, after: Trace) {
    && before <= after
    && forall k :: |before| <= k < |after| && after[k].Ran? ==>
         after[k].id in ids && (after[k].ignored <==> after[k].id in shielded)
  }

  predicate RunsPlaced(ids: set<nat>, shielded: set<nat>, before: Trace, r: Outcome) {
    !r.OutOfFuel? ==> Placed(ids, shielded, before, r.trace)
  }

  lemma PlacedIn(some: set<nat>, shieldedThere: set<nat>, ids: set<nat>, shielded: set<nat>, before: Trace, r: Outcome)
    requires RunsPlaced(some, shieldedThere, before, r) && some <= ids && shielded * some == shieldedThere * some
    ensures RunsPlaced(ids, shielded, before, r)
  {
    if !r.OutOfFuel? {
      forall k | |before| <= k < |r.trace| && r.trace[k].Ran?
        ensures r.trace[k].id in ids && (r.trace[k].ignored <==> r.trace[k].id in shielded)
      {
        assert r.trace[k].id in shielded <==> r.trace[k].id in shielded * some;
        assert r.trace[k].id in shieldedThere <==> r.trace[k].id in shieldedThere * some;
      }
    }
  }

  lemma PlacedSame(ids: set<nat>, shielded: set<nat>, a: Trace)
    ensures Placed(ids, shielded, a, a)
  {
  }

  lemma PlacedThen(ids: set<nat>, shielded: set<nat>, a: Trace, b: Trace, r: Outcome)
    requires Placed(ids, shielded, a, b) || (|b| == |a| + 1 && a <= b && !b[|a|].Ran?)
    requires RunsPlaced(ids, shielded, b, r)
    ensures RunsPlaced(ids, shielded, a, r)
  {
  }

  /** The parts of a pair, an if or a loop keep the shields they have by themselves. */
  lemma PairShields(w: World, c: Command, ignored: bool)
    requires c.Pair? && Numbered(c)
    ensures var i := Ignoring(w, c, ignored);
            var first := Shielded(w, c.first, i || c.connector != Sequence);
            && Ids(c.first) <= Ids(c) && Shielded(w, c, ignored) * Ids(c.first) == first * Ids(c.first)
            && Ids(c.second) <= Ids(c) && Shielded(w, c, ignored) * Ids(c.second) == Shielded(w, c.second, i) * Ids(c.second)
  {
    ShieldedAreIds(w, c.first, Ignoring(w, c, ignored) || c.connector != Sequence);
    ShieldedAreIds(w, c.second, Ignoring(w, c, ignored));
  }

  lemma IfShields(w: World, c: Command, ignored: bool)
    requires c.If? && Numbered(c)
    ensures var i := Ignoring(w, c, ignored);
            && Ids(c.test) <= Ids(c) && Shielded(w, c, ignored) * Ids(c.test) == Shielded(w, c.test, true) * Ids(c.test)
            && Ids(c.yes) <= Ids(c) && Shielded(w, c, ignored) * Ids(c.yes) == Shielded(w, c.yes, i) * Ids(c.yes)
            && Ids(c.no) <= Ids(c) && Shielded(w, c, ignored) * Ids(c.no) == Shielded(w, c.no, i) * Ids(c.no)
  {
    ShieldedAreIds(w, c.test, true);
    ShieldedAreIds(w, c.yes, Ignoring(w, c, ignored));
    ShieldedAreIds(w, c.no, Ignoring(w, c, ignored));
  }

  lemma WhileShields(w: World, c: Command, i: bool)
    requires c.While? && Numbered(c)
    ensures var shielded := Shielded(w, c.test, true) + Shielded(w, c.body, i);
            && Ids(c.test) <= Ids(c) && shielded * Ids(c.test) == Shielded(w, c.test, true) * Ids(c.test)
            && Ids(c.body) <= Ids(c) && shielded * Ids(c.body) == Shielded(w, c.body, i) * Ids(c.body)
  {
    ShieldedAreIds(w, c.test, true);
    ShieldedAreIds(w, c.body, i);
  }

  /** CMD_IGNORE_RETURN is an inherited attribute: a simple command is run with failures ignored exactly when its place in
      the tree says so, in every turn of every loop. */
  lemma {:induction false} IgnoredByPlace(w: World, c: Command, ignored: bool, depth: nat, trace: Trace, fuel: nat)
    requires Numbered(c)
    ensures RunsPlaced(Ids(c), Shielded(w, c, ignored), trace, Run(w, c, ignored, depth, trace, fuel))
    decreases c, 1, 0
  {
    hide RunTurns;
    hide RunWords;
    hide RunClauses;
    hide Placed;
    if c.Null? {
      PlacedSame({}, {}, trace);
    } else {
      var i, ids, shielded := Ignoring(w, c, ignored), Ids(c), Shielded(w, c, ignored);
      match c {
        case Simple(_, _, _) => SimpleEnds(w, c, i, depth, trace);
        case Group(_, _, body) =>
          IgnoredByPlace(w, body, i, depth, trace, fuel);
          PlacedIn(Ids(body), Shielded(w, body, i), ids, shielded, trace, Run(w, body, i, depth, trace, fuel));
        case Pair(_, _, connector, first, second) =>
          PairShields(w, c, ignored);
          var r := Run(w, first, i || connector != Sequence, depth, trace, fuel);
          IgnoredByPlace(w, first, i || connector != Sequence, depth, trace, fuel);
          PlacedIn(Ids(first), Shielded(w, first, i || connector != Sequence), ids, shielded, trace, r);
          if r.Ends? {
            var r2 := Run(w, second, i, depth, r.trace, fuel);
            IgnoredByPlace(w, second, i, depth, r.trace, fuel);
            PlacedIn(Ids(second), Shielded(w, second, i), ids, shielded, r.trace, r2);
            PlacedThen(ids, shielded, trace, r.trace, r2);
          }
        case If(_, _, test, yes, no) =>
          IfShields(w, c, ignored);
          var r := Run(w, test, true, depth, trace, fuel);
          IgnoredByPlace(w, test, true, depth, trace, fuel);
          PlacedIn(Ids(test), Shielded(w, test, true), ids, shielded, trace, r);
          if r.Ends? {
            var part := if r.status == EXECUTION_SUCCESS then yes else no;
            var r2 := Run(w, part, i, depth, r.trace, fuel);
            IgnoredByPlace(w, part, i, depth, r.trace, fuel);
            PlacedIn(Ids(part), Shielded(w, part, i), ids, shielded, r.trace, r2);
            PlacedThen(ids, shielded, trace, r.trace, r2);
          }
        case While(_, _, _, _, _) => TurnsPlaced(w, c, i, depth, trace, EXECUTION_SUCCESS, fuel);
        case For(id, _, body) =>
          PlacedSame(ids, shielded, trace);
          var r := RunWords(w, c, i, depth, trace + [Expanded(id)], EXECUTION_SUCCESS, 0, w.wordCount(trace, id), fuel);
          WordsPlaced(w, c, i, depth, trace + [Expanded(id)], EXECUTION_SUCCESS, 0, w.wordCount(trace, id), fuel);
          PlacedThen(ids, shielded, trace, trace + [Expanded(id)], r);
        case Case(id, _, clauses) =>
          var start := Ends(trace + [Expanded(id)], EXECUTION_SUCCESS, Normal);
          PlacedSame(ClauseIds(clauses), ShieldedClauses(w, clauses, i), trace + [Expanded(id)]);
          ClausesPlaced(w, clauses, i, depth, start, fuel);
          PlacedIn(ClauseIds(clauses), ShieldedClauses(w, clauses, i), ids, shielded, trace + [Expanded(id)], RunClauses(w, clauses, i, depth, start, fuel));
          PlacedThen(ids, shielded, trace, trace + [Expanded(id)], RunClauses(w, clauses, i, depth, start, fuel));
      }
    }
  }

  lemma {:induction false} TurnsPlaced(w: World, c: Command, i: bool, depth: nat, trace: Trace, last: int, fuel: nat)
    requires c.While? && Numbered(c)
    ensures RunsPlaced(Ids(c), Shielded(w, c.test, true) + Shielded(w, c.body, i), trace, RunTurns(w, c, i, depth, trace, last, fuel))
    decreases c, 0, fuel
  {
    hide Run;
    hide Placed;
    hide Ids;
    hide Shielded;
    var ids, shielded := Ids(c), Shielded(w, c.test, true) + Shielded(w, c.body, i);
    if fuel > 0 {
      WhileShields(w, c, i);
      var t := Run(w, c.test, true, depth + 1, trace, fuel);
      IgnoredByPlace(w, c.test, true, depth + 1, trace, fuel);
      PlacedIn(Ids(c.test), Shielded(w, c.test, true), ids, shielded, trace, t);
      if t.Ends? {
        var rb := Run(w, c.body, i, depth + 1, t.trace, fuel);
        IgnoredByPlace(w, c.body, i, depth + 1, t.trace, fuel);
        PlacedIn(Ids(c.body), Shielded(w, c.body, i), ids, shielded, t.trace, rb);
        PlacedThen(ids, shielded, trace, t.trace, rb);
        var b := if t.control != Normal then t else rb;
        if b.Ends? {
          TurnsPlaced(w, c, i, depth, b.trace, b.status, fuel - 1);
          PlacedThen(ids, shielded, trace, b.trace, RunTurns(w, c, i, depth, b.trace, b.status, fuel - 1));
        }
      }
    } else {
      PlacedSame(ids, shielded, trace);
    }
  }

  lemma {:induction false} WordsPlaced(w: World, c: Command, i: bool, depth: nat, trace: Trace, last: int, k: nat, n: nat,
                                       fuel: nat)
    requires c.For? && Numbered(c)
    ensures RunsPlaced(Ids(c), Shielded(w, c.body, i), trace, RunWords(w, c, i, depth, trace, last, k, n, fuel))
    decreases c, 0, n - k
  {
    hide Run;
    hide Placed;
    hide Shielded;
    var ids, shielded := Ids(c), Shielded(w, c.body, i);
    PlacedSame(ids, shielded, trace);
    PlacedSame(ids, shielded, trace);
    if k < n && w.binds(trace, c.id, k) {
      var bound := trace + [Bound(c.id, k)];
      var b := Run(w, c.body, i, depth + 1, bound, fuel);
      IgnoredByPlace(w, c.body, i, depth + 1, bound, fuel);
      PlacedIn(Ids(c.body), shielded, ids, shielded, bound, b);
      PlacedThen(ids, shielded, trace, trace + [Bound(c.id, k)], b);
      if b.Ends? {
        WordsPlaced(w, c, i, depth, b.trace, b.status, k + 1, n, fuel);
        PlacedThen(ids, shielded, trace, b.trace, RunWords(w, c, i, depth, b.trace, b.status, k + 1, n, fuel));
      }
    }
  }

  lemma {:induction false} TriedIsPlaced(w: World, clause: Clauses, k: nat, ids: set<nat>, shielded: set<nat>, trace: Trace,
                                         r: Outcome)
    requires clause.Clause? && RunsPlaced(ids, shielded, TryPatterns(w, clause, k, trace).0, r)
    ensures RunsPlaced(ids, shielded, trace, r)
    decreases clause.patterns - k
  {
    if k < clause.patterns {
      var tried := trace + [Tried(clause.name, k)];
      if !w.matches(trace, clause.name, k) {
        TriedIsPlaced(w, clause, k + 1, ids, shielded, tried, r);
      }
      PlacedThen(ids, shielded, trace, trace + [Tried(clause.name, k)], r);
    }
  }

  lemma {:induction false} ClausesPlaced(w: World, clauses: Clauses, i: bool, depth: nat, sofar: Outcome, fuel: nat)
    requires NumberedClauses(clauses) && sofar.Ends?
    ensures RunsPlaced(ClauseIds(clauses), ShieldedClauses(w, clauses, i), sofar.trace, RunClauses(w, clauses, i, depth, sofar, fuel))
    decreases clauses, 1, 0
  {
    hide RunActions;
    hide TryPatterns;
    hide Placed;
    hide Numbered;
    var ids, shielded := ClauseIds(clauses), ShieldedClauses(w, clauses, i);
    if clauses.Clause? {
      var (after, found) := TryPatterns(w, clauses, 0, sofar.trace);
      var tried := Ends(after, sofar.status, sofar.control);
      if found {
        ActionsPlaced(w, clauses, i, depth, tried, fuel);
      } else {
        ClausesPlaced(w, clauses.next, i, depth, tried, fuel);
        ClauseShields(w, clauses, i);
        PlacedIn(ClauseIds(clauses.next), ShieldedClauses(w, clauses.next, i), ids, shielded, after, RunClauses(w, clauses.next, i, depth, tried, fuel));
      }
      TriedIsPlaced(w, clauses, 0, ids, shielded, sofar.trace, RunClauses(w, clauses, i, depth, sofar, fuel));
    } else {
      PlacedSame(ids, shielded, sofar.trace);
    }
  }

  lemma ClauseShields(w: World, clauses: Clauses, i: bool)
    requires clauses.Clause? && NumberedClauses(clauses)
    ensures var shielded := ShieldedClauses(w, clauses, i);
            && shielded * Ids(clauses.action) == Shielded(w, clauses.action, i) * Ids(clauses.action)
            && shielded * ClauseIds(clauses.next) == ShieldedClauses(w, clauses.next, i) * ClauseIds(clauses.next)
            && Ids(clauses.action) <= ClauseIds(clauses) && ClauseIds(clauses.next) <= ClauseIds(clauses)
  {
    ShieldedAreIds(w, clauses.action, i);
    ShieldedClausesAreIds(w, clauses.next, i);
  }

  lemma {:induction false} ActionsPlaced(w: World, clauses: Clauses, i: bool, depth: nat, sofar: Outcome, fuel: nat)
    requires clauses.Clause? && NumberedClauses(clauses) && sofar.Ends?
    ensures RunsPlaced(ClauseIds(clauses), ShieldedClauses(w, clauses, i), sofar.trace, RunActions(w, clauses, i, depth, sofar, fuel))
    decreases clauses, 0, 0
  {
    hide Run;
    hide RunClauses;
    hide Placed;
    hide ClauseIds;
    hide ShieldedClauses;
    hide Numbered;
    var ids, shielded, next := ClauseIds(clauses), ShieldedClauses(w, clauses, i), clauses.next;
    ClauseShields(w, clauses, i);
    IgnoredByPlace(w, clauses.action, i, depth, sofar.trace, fuel);
    PlacedIn(Ids(clauses.action), Shielded(w, clauses.action, i), ids, shielded, sofar.trace, Run(w, clauses.action, i, depth, sofar.trace, fuel));
    PlacedSame(ids, shielded, sofar.trace);
    var r := if sofar.control != Normal then sofar else Run(w, clauses.action, i, depth, sofar.trace, fuel);
    if r.Ends? {
      if clauses.fallThrough && next.Clause? {
        ActionsPlaced(w, next, i, depth, r, fuel);
        PlacedIn(ClauseIds(next), ShieldedClauses(w, next, i), ids, shielded, r.trace, RunActions(w, next, i, depth, r, fuel));
        PlacedThen(ids, shielded, sofar.trace, r.trace, RunActions(w, next, i, depth, r, fuel));
      }
      ClausesPlaced(w, next, i, depth, r, fuel);
      PlacedIn(ClauseIds(next), ShieldedClauses(w, next, i), ids, shielded, r.trace, RunClauses(w, next, i, depth, r, fuel));
      PlacedThen(ids, shielded, sofar.trace, r.trace, RunClauses(w, next, i, depth, r, fuel));
    }
  }
}

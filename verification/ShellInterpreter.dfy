/** The interpreter of execute_cmd.c with its global variables: every method is proved to take the machine of ShellMachine
    where the corresponding function takes it. */
module ShellInterpreter {
  import opened Shell
  import opened ShellMachine

  /** How an execute function came back: by returning, by jump_to_top_level (ERREXIT), or out of fuel. */
  datatype Return = Normally | ErrExit | Exhausted {
    predicate IsFailure() { !Normally? }
    function PropagateFailure(): Return requires IsFailure() { this }
  }

  class Interpreter {
    const world: World
    var trace: Trace
    var lastExitValue: int
    var breaking: nat
    var continuing: nat
    var loopLevel: nat
    var cmdFlags: set<nat>
    var innerFlags: set<nat>

    constructor (w: World)
      ensures world == w && Now() == Machine([], 0, 0, 0, 0, {}, {})
    {
      world, trace, lastExitValue, breaking, continuing := w, [], 0, 0, 0;
      loopLevel, cmdFlags, innerFlags := 0, {}, {};
    }

    function Now(): Machine
      reads this
    {
      Machine(trace, lastExitValue, breaking, continuing, loopLevel, cmdFlags, innerFlags)
    }

    /** A method did what d says. */
    ghost predicate Did(d: Done, how: Return, status: int)
      reads this
    {
      match d
      case Returned(m, s) => how == Normally && status == s && Now() == m
      case Jumped(m) => how == ErrExit && Now() == m
      case NoFuel => how == Exhausted
    }

    /** c->flags |= CMD_IGNORE_RETURN. */
    method SetIgnore(c: Command)
      modifies this`cmdFlags
      ensures Now() == old(Mark(Now(), c, true))
    {
      if !c.Null? {
        cmdFlags := cmdFlags + {c.id};
      }
    }

    method ExecuteCommand(c: Command, fuel: nat) returns (how: Return, status: int)
      modifies this
      ensures Did(Exec(world, c, old(Now()), fuel), how, status)
      decreases c, 2, 0
    {
      hide ExecBody;
      how, status := Normally, EXECUTION_SUCCESS;
      if breaking > 0 || continuing > 0 {
        return Normally, lastExitValue;
      }
      if c.Null? {
        return;
      }
      if world.errexit && c.invert {
        SetIgnore(c);
      }
      status :- ExecuteKind(c, c.id in cmdFlags, fuel);
      if c.invert {
        status := if status == EXECUTION_SUCCESS then EXECUTION_FAILURE else EXECUTION_SUCCESS;
      }
      lastExitValue := status;
    }

    /** The switch over command->type, after the command's ignore flag has been copied to its own part. */
    method ExecuteKind(c: Command, ignore: bool, fuel: nat) returns (how: Return, status: int)
      requires !c.Null?
      modifies this
      ensures Did(ExecBody(world, c, old(Now()), ignore, fuel), how, status)
      decreases c, 1, 0
    {
      hide Exec;
      hide ExecTurns;
      hide ExecWords;
      hide ExecClauses;
      hide ExecSimple;
      if ignore && !c.Group? && !c.Pair? {
        innerFlags := innerFlags + {c.id};
      }
      match c {
        case Simple(_, _, _) => how, status := ExecuteSimple(c, ignore);
        case Group(_, _, body) =>
          if ignore {
            SetIgnore(body);
          }
          how, status := ExecuteCommand(body, fuel);
        case Pair(_, _, _, _, _) => how, status := ExecuteConnection(c, ignore, fuel);
        case If(_, _, _, _, _) => how, status := ExecuteIf(c, fuel);
        case While(_, _, _, _, _) => how, status := ExecuteWhileOrUntil(c, fuel);
        case For(_, _, _) => how, status := ExecuteFor(c, fuel);
        case Case(_, _, _) => how, status := ExecuteCase(c, fuel);
      }
    }

    method ExecuteSimple(c: Command, ignore: bool) returns (how: Return, status: int)
      requires c.Simple?
      modifies this
      ensures Did(ExecSimple(world, c, old(Now()), ignore), how, status)
    {
      var t := trace;
      match c.builtin {
        case External => status := world.statusOf(trace, c.id);
        case BreakOut(n) => status := BreakBuiltin(n, false);
        case ContinueOn(n) => status := BreakBuiltin(n, true);
      }
      trace := t + [Ran(c.id, c.id in innerFlags, status)];
      if !ignore && !c.invert && world.errexit && status != EXECUTION_SUCCESS {
        lastExitValue := status;
        return ErrExit, status;
      }
      how := Normally;
    }

    /** break_builtin and continue_builtin. */
    method BreakBuiltin(n: int, resume: bool) returns (status: int)
      modifies this`breaking, this`continuing
      ensures loopLevel == 0 ==> status == EXECUTION_SUCCESS && breaking == old(breaking) && continuing == old(continuing)
      ensures loopLevel > 0 && n <= 0 ==> status == EXECUTION_FAILURE && breaking == loopLevel && continuing == old(continuing)
      ensures loopLevel > 0 && n > 0 ==> status == EXECUTION_SUCCESS
      ensures loopLevel > 0 && n > 0 && resume ==> continuing == Min(n, loopLevel) && breaking == old(breaking)
      ensures loopLevel > 0 && n > 0 && !resume ==> breaking == Min(n, loopLevel) && continuing == old(continuing)
    {
      if loopLevel == 0 {
        return EXECUTION_SUCCESS;
      }
      if n <= 0 {
        breaking := loopLevel;
        return EXECUTION_FAILURE;
      }
      var levels := n;
      if levels > loopLevel {
        levels := loopLevel;
      }
      if resume {
        continuing := levels;
      } else {
        breaking := levels;
      }
      return EXECUTION_SUCCESS;
    }

    method ExecuteConnection(c: Command, ignore: bool, fuel: nat) returns (how: Return, status: int)
      requires c.Pair?
      modifies this
      ensures Did(ExecBody(world, c, old(Now()), ignore, fuel), how, status)
      decreases c, 0, 0
    {
      hide Exec;
      status := EXECUTION_SUCCESS;
      if c.connector == Sequence {
        if ignore {
          SetIgnore(c.first);
          SetIgnore(c.second);
        }
        status :- ExecuteCommand(c.first, fuel);
        how, status := ExecuteCommand(c.second, fuel);
      } else {
        SetIgnore(c.first);
        status :- ExecuteCommand(c.first, fuel);
        how := Normally;
        if (c.connector == AndAnd && status == EXECUTION_SUCCESS) || (c.connector == OrOr && status != EXECUTION_SUCCESS) {
          if ignore {
            SetIgnore(c.second);
          }
          how, status := ExecuteCommand(c.second, fuel);
        }
      }
    }

    method ExecuteIf(c: Command, fuel: nat) returns (how: Return, status: int)
      requires c.If?
      modifies this
      ensures Did(AfterInner(world, c, old(Now()), fuel), how, status)
      decreases c, 0, 0
    {
      hide Exec;
      SetIgnore(c.test);
      status :- ExecuteCommand(c.test, fuel);
      if status == EXECUTION_SUCCESS {
        if c.id in innerFlags {
          SetIgnore(c.yes);
        }
        how, status := ExecuteCommand(c.yes, fuel);
      } else {
        if c.id in innerFlags {
          SetIgnore(c.no);
        }
        how, status := ExecuteCommand(c.no, fuel);
      }
    }

    /** breaking and continuing after a loop's body: whether the loop goes on. */
    method CountDown() returns (goesOn: bool)
      modifies this`breaking, this`continuing
      ensures (goesOn, Now()) == AfterBody(old(Now()))
    {
      if breaking > 0 {
        breaking := breaking - 1;
        return false;
      }
      if continuing > 0 {
        continuing := continuing - 1;
        if continuing > 0 {
          return false;
        }
      }
      return true;
    }

    method ExecuteWhileOrUntil(c: Command, fuel: nat) returns (how: Return, bodyStatus: int)
      requires c.While?
      modifies this
      ensures Did(AfterInner(world, c, old(Now()), fuel), how, bodyStatus)
      decreases c, 0, 1
    {
      hide Exec;
      hide ExecTurns;
      bodyStatus := EXECUTION_SUCCESS;
      loopLevel := loopLevel + 1;
      SetIgnore(c.test);
      if c.id in innerFlags {
        SetIgnore(c.body);
      }
      bodyStatus :- Turns(c, fuel);
      if loopLevel > 0 {
        loopLevel := loopLevel - 1;
      }
      how := Normally;
    }

    /** The loop of execute_while_or_until. */
    method Turns(c: Command, fuel: nat) returns (how: Return, bodyStatus: int)
      requires c.While?
      modifies this
      ensures Did(ExecTurns(world, c, old(Now()), EXECUTION_SUCCESS, fuel), how, bodyStatus)
      decreases c, 0, 0
    {
      hide Exec;
      hide AfterBody;
      bodyStatus := EXECUTION_SUCCESS;
      ghost var start := Now();
      var turns := fuel;
      while true
        invariant ExecTurns(world, c, start, EXECUTION_SUCCESS, fuel) == ExecTurns(world, c, Now(), bodyStatus, turns)
        decreases turns
      {
        if turns == 0 {
          return Exhausted, bodyStatus;
        }
        var status :- ExecuteCommand(c.test, turns);
        if (status == EXECUTION_SUCCESS) == c.until {
          if breaking > 0 {
            breaking := breaking - 1;
          }
          break;
        }
        bodyStatus :- ExecuteCommand(c.body, turns);
        var goesOn := CountDown();
        if !goesOn {
          break;
        }
        turns := turns - 1;
      }
      how := Normally;
    }

    method ExecuteFor(c: Command, fuel: nat) returns (how: Return, retval: int)
      requires c.For?
      modifies this
      ensures Did(AfterInner(world, c, old(Now()), fuel), how, retval)
      decreases c, 0, 1
    {
      hide Exec;
      hide ExecWords;
      retval := EXECUTION_FAILURE;
      if !world.isIdentifier(c.id) {
        return Normally, EXECUTION_FAILURE;
      }
      loopLevel := loopLevel + 1;
      var words := world.wordCount(trace, c.id);
      trace := trace + [Expanded(c.id)];
      if c.id in innerFlags {
        SetIgnore(c.body);
      }
      retval :- Words(c, words, fuel);
      if loopLevel > 0 {
        loopLevel := loopLevel - 1;
      }
      how := Normally;
    }

    /** The loop of execute_for_command. */
    method Words(c: Command, words: nat, fuel: nat) returns (how: Return, retval: int)
      requires c.For?
      modifies this
      ensures Did(ExecWords(world, c, old(Now()), EXECUTION_SUCCESS, 0, words, fuel), how, retval)
      decreases c, 0, 0
    {
      hide Exec;
      hide AfterBody;
      ghost var start := Now();
      retval := EXECUTION_SUCCESS;
      var k := 0;
      while k < words
        invariant k <= words
        invariant ExecWords(world, c, start, EXECUTION_SUCCESS, 0, words, fuel) == ExecWords(world, c, Now(), retval, k, words, fuel)
      {
        if !world.binds(trace, c.id, k) {
          retval := EXECUTION_FAILURE;
          break;
        }
        trace := trace + [Bound(c.id, k)];
        retval :- ExecuteCommand(c.body, fuel);
        var goesOn := CountDown();
        if !goesOn {
          break;
        }
        k := k + 1;
      }
      how := Normally;
    }

    /** Whether a pattern of the clause matches; patterns are expanded and tried one by one. */
    method TryClause(clause: Clauses) returns (matches: bool)
      requires clause.Clause?
      modifies this`trace
      ensures (trace, matches) == TryPatterns(world, clause, 0, old(trace))
    {
      var k := 0;
      matches := false;
      while k < clause.patterns
        invariant k <= clause.patterns && !matches
        invariant TryPatterns(world, clause, 0, old(trace)) == TryPatterns(world, clause, k, trace)
      {
        var tried := trace + [Tried(clause.name, k)];
        matches := world.matches(trace, clause.name, k);
        trace := tried;
        if matches {
          return;
        }
        k := k + 1;
      }
    }

    method ExecuteCase(c: Command, fuel: nat) returns (how: Return, retval: int)
      requires c.Case?
      modifies this
      ensures Did(AfterInner(world, c, old(Now()), fuel), how, retval)
      decreases c, 0, 0
    {
      hide Exec;
      hide TryPatterns;
      trace := trace + [Expanded(c.id)];
      retval := EXECUTION_SUCCESS;
      var ignore := c.id in innerFlags;
      ghost var start := Now();
      var clauses := c.clauses;
      while clauses.Clause?
        invariant clauses == c.clauses || clauses < c.clauses
        invariant ExecClauses(world, c.clauses, ignore, start, EXECUTION_SUCCESS, fuel)
               == ExecClauses(world, clauses, ignore, Now(), retval, fuel)
        decreases clauses
      {
        var found := TryClause(clauses);
        if found {
          ghost var matched, here := Now(), clauses;
          var goesOn := true;
          while goesOn
            invariant goesOn ==> clauses.Clause?
            invariant clauses == c.clauses || clauses < c.clauses
            invariant clauses == here || clauses < here
            invariant goesOn ==> ExecActions(world, here, ignore, matched, fuel) == ExecActions(world, clauses, ignore, Now(), fuel)
            invariant !goesOn && clauses.NoClauses? ==> ExecActions(world, here, ignore, matched, fuel) == Returned(Now(), retval)
            invariant !goesOn && clauses.Clause? ==>
                        ExecActions(world, here, ignore, matched, fuel)
                        == if clauses.testNext then ExecClauses(world, clauses.next, ignore, Now(), retval, fuel) else Returned(Now(), retval)
            decreases clauses, goesOn
          {
            if ignore {
              SetIgnore(clauses.action);
            }
            retval :- ExecuteCommand(clauses.action, fuel);
            if clauses.fallThrough {
              clauses := clauses.next;
              goesOn := clauses.Clause?;
            } else {
              goesOn := false;
            }
          }
          if clauses.NoClauses? || !clauses.testNext {
            break;
          }
        }
        clauses := clauses.next;
      }
      how := Normally;
    }
  }

  /** What follows once a command's ignore flag has been copied to its own part. */
  function AfterInner(w: World, c: Command, m: Machine, fuel: nat): Done
    requires !c.Null?
  {
    ExecBody(w, c, m, false, fuel)
  }
}

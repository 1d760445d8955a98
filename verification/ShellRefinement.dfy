/** The counters and flags of the interpreter encode the structured meaning of commands. */
module ShellRefinement {
  import opened Shell
  import opened ShellMachine

  // ----- trees -----

  function Ids(c: Command): set<nat> {
    match c
    case Null => {}
    case Simple(id, _, _) => {id}
    case Group(id, _, body) => {id} + Ids(body)
    case Pair(id, _, _, first, second) => {id} + Ids(first) + Ids(second)
    case If(id, _, test, yes, no) => {id} + Ids(test) + Ids(yes) + Ids(no)
    case While(id, _, _, test, body) => {id} + Ids(test) + Ids(body)
    case For(id, _, body) => {id} + Ids(body)
    case Case(id, _, clauses) => {id} + ClauseIds(clauses)
  }

  function ClauseIds(clauses: Clauses): set<nat> {
    if clauses.NoClauses? then {} else Ids(clauses.action) + ClauseIds(clauses.next)
  }

  /** Every node has a number of its own. */
  predicate Numbered(c: Command) {
    match c
    case Null => true
    case Simple(_, _, _) => true
    case Group(id, _, body) => id !in Ids(body) && Numbered(body)
    case Pair(id, _, _, first, second) =>
      && id !in Ids(first) + Ids(second) && Ids(first) !! Ids(second) && Numbered(first) && Numbered(second)
    case If(id, _, test, yes, no) =>
      && id !in Ids(test) + Ids(yes) + Ids(no) && Ids(test) !! Ids(yes) && Ids(test) !! Ids(no) && Ids(yes) !! Ids(no)
      && Numbered(test) && Numbered(yes) && Numbered(no)
    case While(id, _, _, test, body) =>
      && id !in Ids(test) + Ids(body) && Ids(test) !! Ids(body) && Numbered(test) && Numbered(body)
    case For(id, _, body) => id !in Ids(body) && Numbered(body)
    case Case(id, _, clauses) => id !in ClauseIds(clauses) && NumberedClauses(clauses)
  }

  predicate NumberedClauses(clauses: Clauses) {
    clauses.Clause? ==>
      && Ids(clauses.action) !! ClauseIds(clauses.next)
      && Numbered(clauses.action) && NumberedClauses(clauses.next)
  }

  /** Inside r loops of c's own, a continue does not reach beyond them. */
  predicate Contained(c: Command, r: nat) {
    match c
    case Null => true
    case Simple(_, _, builtin) => builtin.ContinueOn? ==> builtin.n <= r
    case Group(_, _, body) => Contained(body, r)
    case Pair(_, _, _, first, second) => Contained(first, r) && Contained(second, r)
    case If(_, _, test, yes, no) => Contained(test, r) && Contained(yes, r) && Contained(no, r)
    case While(_, _, _, test, body) => Contained(test, r + 1) && Contained(body, r + 1)
    case For(_, _, body) => Contained(body, r + 1)
    case Case(_, _, clauses) => ContainedClauses(clauses, r)
  }

  predicate ContainedClauses(clauses: Clauses, r: nat) {
    clauses.Clause? ==> Contained(clauses.action, r) && ContainedClauses(clauses.next, r)
  }

  /** Loops have a test and a body, ifs a test. */
  predicate Complete(c: Command) {
    match c
    case Null => true
    case Simple(_, _, _) => true
    case Group(_, _, body) => Complete(body)
    case Pair(_, _, _, first, second) => Complete(first) && Complete(second)
    case If(_, _, test, yes, no) => !test.Null? && Complete(test) && Complete(yes) && Complete(no)
    case While(_, _, _, test, body) => !test.Null? && !body.Null? && Complete(test) && Complete(body)
    case For(_, _, body) => !body.Null? && Complete(body)
    case Case(_, _, clauses) => CompleteClauses(clauses)
  }

  predicate CompleteClauses(clauses: Clauses) {
    clauses.Clause? ==> Complete(clauses.action) && CompleteClauses(clauses.next)
  }

  /** No continue leaves a loop's test. */
  predicate TestsContained(c: Command) {
    match c
    case Null => true
    case Simple(_, _, _) => true
    case Group(_, _, body) => TestsContained(body)
    case Pair(_, _, _, first, second) => TestsContained(first) && TestsContained(second)
    case If(_, _, test, yes, no) => TestsContained(test) && TestsContained(yes) && TestsContained(no)
    case While(_, _, _, test, body) => Contained(test, 0) && TestsContained(test) && TestsContained(body)
    case For(_, _, body) => TestsContained(body)
    case Case(_, _, clauses) => TestsContainedClauses(clauses)
  }

  predicate TestsContainedClauses(clauses: Clauses) {
    clauses.Clause? ==> TestsContained(clauses.action) && TestsContainedClauses(clauses.next)
  }

  // ----- flags -----

  /** Every flag found in the tree is one that the place of its node justifies. */
  predicate Sound(w: World, c: Command, ignored: bool, cmd: set<nat>, inner: set<nat>) {
    !c.Null? ==>
      var i := Ignoring(w, c, ignored);
      && (c.id in cmd + inner ==> i)
      && match c
         case Simple(_, _, _) => true
         case Group(_, _, body) => Sound(w, body, i, cmd, inner)
         case Pair(_, _, connector, first, second) =>
           Sound(w, first, i || connector != Sequence, cmd, inner) && Sound(w, second, i, cmd, inner)
         case If(_, _, test, yes, no) =>
           Sound(w, test, true, cmd, inner) && Sound(w, yes, i, cmd, inner) && Sound(w, no, i, cmd, inner)
         case While(_, _, _, test, body) => Sound(w, test, true, cmd, inner) && Sound(w, body, i, cmd, inner)
         case For(_, _, body) => Sound(w, body, i, cmd, inner)
         case Case(_, _, clauses) => SoundClauses(w, clauses, i, cmd, inner)
  }

  predicate SoundClauses(w: World, clauses: Clauses, ignored: bool, cmd: set<nat>, inner: set<nat>) {
    clauses.Clause? ==>
      Sound(w, clauses.action, ignored, cmd, inner) && SoundClauses(w, clauses.next, ignored, cmd, inner)
  }

  /** A place where failures do not count has been marked so. */
  predicate Marked(c: Command, ignored: bool, m: Machine) {
    ignored && !c.Null? ==> c.id in m.cmdFlags
  }

  /** Flags are only added, and only to the given nodes. */
  predicate Grows(m: Machine, m2: Machine, ids: set<nat>) {
    && m.cmdFlags <= m2.cmdFlags <= m.cmdFlags + ids
    && m.innerFlags <= m2.innerFlags <= m.innerFlags + ids
  }

  lemma {:induction false} SoundElsewhere(w: World, c: Command, ignored: bool, m: Machine, m2: Machine, ids: set<nat>)
    requires Sound(w, c, ignored, m.cmdFlags, m.innerFlags) && Grows(m, m2, ids) && ids !! Ids(c)
    ensures Sound(w, c, ignored, m2.cmdFlags, m2.innerFlags)
    decreases c
  {
    if !c.Null? {
      var i := Ignoring(w, c, ignored);
      match c {
        case Simple(_, _, _) =>
        case Group(_, _, body) => SoundElsewhere(w, body, i, m, m2, ids);
        case Pair(_, _, connector, first, second) =>
          SoundElsewhere(w, first, i || connector != Sequence, m, m2, ids);
          SoundElsewhere(w, second, i, m, m2, ids);
        case If(_, _, test, yes, no) =>
          SoundElsewhere(w, test, true, m, m2, ids);
          SoundElsewhere(w, yes, i, m, m2, ids);
          SoundElsewhere(w, no, i, m, m2, ids);
        case While(_, _, _, test, body) =>
          SoundElsewhere(w, test, true, m, m2, ids);
          SoundElsewhere(w, body, i, m, m2, ids);
        case For(_, _, body) => SoundElsewhere(w, body, i, m, m2, ids);
        case Case(_, _, clauses) => ClausesSoundElsewhere(w, clauses, i, m, m2, ids);
      }
    }
  }

  lemma {:induction false} ClausesSoundElsewhere(w: World, clauses: Clauses, ignored: bool, m: Machine, m2: Machine,
                                                 ids: set<nat>)
    requires SoundClauses(w, clauses, ignored, m.cmdFlags, m.innerFlags) && Grows(m, m2, ids) && ids !! ClauseIds(clauses)
    ensures SoundClauses(w, clauses, ignored, m2.cmdFlags, m2.innerFlags)
    decreases clauses
  {
    if clauses.Clause? {
      SoundElsewhere(w, clauses.action, ignored, m, m2, ids);
      ClausesSoundElsewhere(w, clauses.next, ignored, m, m2, ids);
    }
  }

  /** Flags added to a node where they are justified leave the tree sound. */
  lemma OwnFlags(w: World, c: Command, ignored: bool, m: Machine, m2: Machine)
    requires !c.Null? && Numbered(c) && Sound(w, c, ignored, m.cmdFlags, m.innerFlags) && Grows(m, m2, {c.id})
    requires c.id in m2.cmdFlags + m2.innerFlags ==> Ignoring(w, c, ignored)
    ensures Sound(w, c, ignored, m2.cmdFlags, m2.innerFlags)
  {
    var i := Ignoring(w, c, ignored);
    match c {
      case Simple(_, _, _) =>
      case Group(_, _, body) => SoundElsewhere(w, body, i, m, m2, {c.id});
      case Pair(_, _, connector, first, second) =>
        SoundElsewhere(w, first, i || connector != Sequence, m, m2, {c.id});
        SoundElsewhere(w, second, i, m, m2, {c.id});
      case If(_, _, test, yes, no) =>
        SoundElsewhere(w, test, true, m, m2, {c.id});
        SoundElsewhere(w, yes, i, m, m2, {c.id});
        SoundElsewhere(w, no, i, m, m2, {c.id});
      case While(_, _, _, test, body) =>
        SoundElsewhere(w, test, true, m, m2, {c.id});
        SoundElsewhere(w, body, i, m, m2, {c.id});
      case For(_, _, body) => SoundElsewhere(w, body, i, m, m2, {c.id});
      case Case(_, _, clauses) => ClausesSoundElsewhere(w, clauses, i, m, m2, {c.id});
    }
  }

  /** Marking a command whose failures do not count. */
  lemma MarkChild(w: World, c: Command, ignored: bool, m: Machine, mark: bool)
    requires Numbered(c) && Sound(w, c, ignored, m.cmdFlags, m.innerFlags) && (mark ==> ignored)
    ensures Sound(w, c, ignored, Mark(m, c, mark).cmdFlags, Mark(m, c, mark).innerFlags)
    ensures Grows(m, Mark(m, c, mark), Ids(c)) && Marked(c, mark, Mark(m, c, mark))
    ensures Mark(m, c, mark) == m.(cmdFlags := Mark(m, c, mark).cmdFlags)
  {
    hide Sound;
    if mark && !c.Null? {
      OwnFlags(w, c, ignored, m, Mark(m, c, mark));
    }
  }

  // ----- the encoding -----

  /** The counters say what control says, and reach no further than the loops around. */
  predicate Encodes(m: Machine, control: Control, level: nat) {
    match control
    case Normal => !Unwinding(m)
    case Breaks(n) => 0 < n <= level && m.breaking == n && m.continuing == 0
    case Continues(n) => 0 < n <= level && m.continuing == n && m.breaking == 0
  }

  /** What the machine did from a state with the given loop level is the outcome. */
  predicate Agree(level: nat, d: Done, r: Outcome) {
    match r
    case OutOfFuel => d.NoFuel?
    case Strays(_) => false
    case Exits(trace, status) => d.Jumped? && d.m.trace == trace && d.m.last == status
    case Ends(trace, status, control) =>
      && d.Returned? && d.status == status && d.m.trace == trace && d.m.loopLevel == level
      && Encodes(d.m, control, level)
  }

  /** Where a command can be run: the tree is in order, its flags are justified, nothing is being unwound. */
  predicate Ready(w: World, c: Command, ignored: bool, m: Machine) {
    && Numbered(c) && Complete(c) && !Unwinding(m)
    && Sound(w, c, ignored, m.cmdFlags, m.innerFlags) && Marked(c, ignored, m)
  }

  /** The tree and its flags after a command has returned. */
  predicate Kept(w: World, c: Command, ignored: bool, m: Machine, d: Done) {
    d.Returned? ==> Grows(m, d.m, Ids(c)) && Sound(w, c, ignored, d.m.cmdFlags, d.m.innerFlags)
  }

  /** The mark an inverted command puts on itself under set -e. */
  lemma OwnMark(w: World, c: Command, ignored: bool, m: Machine)
    requires !c.Null? && Ready(w, c, ignored, m)
    ensures var m0 := Mark(m, c, w.errexit && c.invert);
            && Ready(w, c, ignored, m0) && Grows(m, m0, Ids(c))
            && (c.id in m0.cmdFlags <==> Ignoring(w, c, ignored))
  {
    hide Complete;
    OwnFlags(w, c, ignored, m, Mark(m, c, w.errexit && c.invert));
  }

  lemma InnerMark(w: World, c: Command, ignored: bool, m: Machine)
    requires !c.Null? && Ready(w, c, ignored, m)
    ensures var m1 := MarkInner(m, c, Ignoring(w, c, ignored));
            && Ready(w, c, ignored, m1) && Grows(m, m1, {c.id})
            && (c.id in m1.innerFlags <==> Ignoring(w, c, ignored))
  {
    hide Complete;
    OwnFlags(w, c, ignored, m, MarkInner(m, c, Ignoring(w, c, ignored)));
  }

  lemma GrowsOn(m: Machine, m1: Machine, m2: Machine, some: set<nat>, more: set<nat>, all: set<nat>)
    requires Grows(m, m1, some) && Grows(m1, m2, more) && some <= all && more <= all
    ensures Grows(m, m2, all)
  {
  }

  /** The status of a command that was there is also the last exit value; what is being unwound was started by such one. */
  predicate Recorded(c: Command, d: Done) {
    d.Returned? && (!c.Null? || Unwinding(d.m)) ==> d.m.last == d.status
  }

  /** The interpreter does what the command means and keeps the tree sound, unless the command goes astray. */
  predicate Follows(w: World, c: Command, ignored: bool, m: Machine, d: Done, r: Outcome) {
    !r.Strays? ==> Agree(m.loopLevel, d, r) && Kept(w, c, ignored, m, d)
  }

  /** The interpreter does what the command means, and keeps the tree sound. */
  lemma {:induction false} Refines(w: World, c: Command, ignored: bool, m: Machine, fuel: nat)
    requires Ready(w, c, ignored, m)
    ensures Follows(w, c, ignored, m, Exec(w, c, m, fuel), Run(w, c, ignored, m.loopLevel, m.trace, fuel))
    ensures !Run(w, c, ignored, m.loopLevel, m.trace, fuel).Strays? ==> Recorded(c, Exec(w, c, m, fuel))
    decreases c, 3, 0
  {
    hide ExecBody;
    hide RunBody;
    hide Sound;
    hide Complete;
    hide Numbered;
    hide Ids;
    hide Follows;
    hide Recorded;
    if !c.Null? {
      var m0 := Mark(m, c, w.errexit && c.invert);
      OwnMark(w, c, ignored, m);
      BodyRefines(w, c, ignored, m0, fuel);
      var i := Ignoring(w, c, ignored);
      FinishFollows(w, c, ignored, m, m0, ExecBody(w, c, m0, i, fuel), RunBody(w, c, i, m.loopLevel, m.trace, fuel));
    } else {
      NullIsSound(w, ignored, m);
    }
  }

  lemma FinishFollows(w: World, c: Command, ignored: bool, m: Machine, m0: Machine, d: Done, r: Outcome)
    requires !c.Null? && Follows(w, c, ignored, m0, d, r) && Grows(m, m0, Ids(c)) && m0.loopLevel == m.loopLevel
    ensures Follows(w, c, ignored, m, Finish(c, d), Negate(c.invert, r))
    ensures !r.Strays? ==> Recorded(c, Finish(c, d))
  {
    hide Sound;
    hide Ids;
  }

  lemma NullIsSound(w: World, ignored: bool, m: Machine)
    requires !Unwinding(m)
    ensures Follows(w, Null, ignored, m, Returned(m, EXECUTION_SUCCESS), Ends(m.trace, EXECUTION_SUCCESS, Normal))
    ensures Recorded(Null, Returned(m, EXECUTION_SUCCESS))
  {
  }

  lemma {:induction false} BodyRefines(w: World, c: Command, ignored: bool, m: Machine, fuel: nat)
    requires !c.Null? && Ready(w, c, ignored, m)
    ensures BodyAgrees(w, c, ignored, m, fuel)
    decreases c, 2, 0
  {
    hide BodyAgrees;
    hide Ready;
    match c {
      case Simple(_, _, _) => SimpleRefines(w, c, ignored, m, fuel);
      case Group(_, _, _) => GroupRefines(w, c, ignored, m, fuel);
      case Pair(_, _, connector, _, _) =>
        if connector == Sequence {
          SequenceRefines(w, c, ignored, m, fuel);
        } else {
          AndOrRefines(w, c, ignored, m, fuel);
        }
      case If(_, _, _, _, _) => IfRefines(w, c, ignored, m, fuel);
      case While(_, _, _, _, _) => WhileRefines(w, c, ignored, m, fuel);
      case For(_, _, _) => ForRefines(w, c, ignored, m, fuel);
      case Case(_, _, _) => CaseRefines(w, c, ignored, m, fuel);
    }
  }

  /** What a constructor's proof shows. */
  predicate BodyAgrees(w: World, c: Command, ignored: bool, m: Machine, fuel: nat)
    requires !c.Null?
  {
    var i := Ignoring(w, c, ignored);
    Follows(w, c, ignored, m, ExecBody(w, c, m, i, fuel), RunBody(w, c, i, m.loopLevel, m.trace, fuel))
  }

  lemma SimpleRefines(w: World, c: Command, ignored: bool, m: Machine, fuel: nat)
    requires c.Simple? && Ready(w, c, ignored, m)
    ensures BodyAgrees(w, c, ignored, m, fuel)
  {
    InnerMark(w, c, ignored, m);
  }

  lemma GroupRefines(w: World, c: Command, ignored: bool, m: Machine, fuel: nat)
    requires c.Group? && Ready(w, c, ignored, m)
    ensures BodyAgrees(w, c, ignored, m, fuel)
    decreases c, 0, 0
  {
    hide Exec;
    hide Run;
    var strays := RunBody(w, c, Ignoring(w, c, ignored), m.loopLevel, m.trace, fuel).Strays?;
    var i := Ignoring(w, c, ignored);
    var m1 := Mark(m, c.body, i);
    MarkChild(w, c.body, i, m, i);
    Refines(w, c.body, i, m1, fuel);
    var d := Exec(w, c.body, m1, fuel);
    if d.Returned? && !strays {
      GrowsOn(m, m1, d.m, Ids(c.body), Ids(c.body), Ids(c.body));
    }
  }

  lemma UnwindsAtOnce(w: World, c: Command, m: Machine, fuel: nat)
    requires Unwinding(m)
    ensures Exec(w, c, m, fuel) == Returned(m, m.last)
  {
  }

  /** A later part of a tree stays ready while an earlier part runs. */
  lemma StaysReady(w: World, c: Command, ignored: bool, m: Machine, m2: Machine, ids: set<nat>)
    requires Numbered(c) && Complete(c) && Sound(w, c, ignored, m.cmdFlags, m.innerFlags) && Grows(m, m2, ids) && ids !! Ids(c)
    ensures Sound(w, c, ignored, m2.cmdFlags, m2.innerFlags)
    ensures !Unwinding(m2) && Marked(c, ignored, m) ==> Ready(w, c, ignored, m2)
  {
    hide Numbered;
    hide Complete;
    hide Sound;
    hide Ids;
    SoundElsewhere(w, c, ignored, m, m2, ids);
  }

  /** Marking a part and running it, or passing it over when something is being unwound. */
  lemma {:induction false} PartRefines(w: World, c: Command, ignored: bool, m: Machine, mark: bool, fuel: nat)
    requires Numbered(c) && Complete(c) && Sound(w, c, ignored, m.cmdFlags, m.innerFlags)
    requires (ignored ==> mark || Marked(c, ignored, m)) && (mark ==> ignored)
    ensures var d, r := Exec(w, c, Mark(m, c, mark), fuel), Run(w, c, ignored, m.loopLevel, m.trace, fuel);
            && (Unwinding(m) ==> d == Returned(Mark(m, c, mark), m.last) && Kept(w, c, ignored, m, d))
            && (!Unwinding(m) && !r.Strays? ==> Agree(m.loopLevel, d, r) && Kept(w, c, ignored, m, d) && Recorded(c, d))
    decreases c, 4, 0
  {
    hide Exec;
    hide Run;
    hide Sound;
    hide Numbered;
    hide Complete;
    hide Ids;
    var m1 := Mark(m, c, mark);
    MarkChild(w, c, ignored, m, mark);
    if Unwinding(m) {
      UnwindsAtOnce(w, c, m1, fuel);
    } else {
      Refines(w, c, ignored, m1, fuel);
      var d := Exec(w, c, m1, fuel);
      if d.Returned? && !Run(w, c, ignored, m.loopLevel, m.trace, fuel).Strays? {
        GrowsOn(m, m1, d.m, Ids(c), Ids(c), Ids(c));
      }
    }
  }

  /** A part of a tree is in order and its flags are sound. */
  predicate Part(w: World, c: Command, ignored: bool, m: Machine) {
    Numbered(c) && Complete(c) && Sound(w, c, ignored, m.cmdFlags, m.innerFlags)
  }

  /** The parts of a command, in which failures are ignored when i says so, are in order, apart, and have sound flags. */
  predicate Parts(w: World, c: Command, i: bool, m: Machine) {
    match c
    case Null => true
    case Simple(_, _, _) => true
    case Group(_, _, body) => Part(w, body, i, m)
    case Pair(id, _, connector, first, second) =>
      && id !in Ids(first) + Ids(second) && Ids(first) !! Ids(second) && Ids(c) == {id} + Ids(first) + Ids(second)
      && Part(w, first, i || connector != Sequence, m) && Part(w, second, i, m)
    case If(id, _, test, yes, no) =>
      && Ids(test) !! Ids(yes) && Ids(test) !! Ids(no) && Ids(yes) !! Ids(no)
      && id !in Ids(test) + Ids(yes) + Ids(no) && Ids(c) == Ids(test) + Ids(yes) + Ids(no) + {id}
      && Part(w, test, true, m) && Part(w, yes, i, m) && Part(w, no, i, m)
    case While(id, _, _, test, body) =>
      && id !in Ids(test) + Ids(body) && Ids(test) !! Ids(body) && !test.Null? && !body.Null?
      && Ids(c) == {id} + Ids(test) + Ids(body) && Part(w, test, true, m) && Part(w, body, i, m)
    case For(id, _, body) => id !in Ids(body) && !body.Null? && Ids(c) == {id} + Ids(body) && Part(w, body, i, m)
    case Case(id, _, clauses) =>
      && id !in ClauseIds(clauses) && NumberedClauses(clauses) && CompleteClauses(clauses) && Ids(c) == {id} + ClauseIds(clauses)
      && SoundClauses(w, clauses, i, m.cmdFlags, m.innerFlags)
  }

  lemma PartsReady(w: World, c: Command, ignored: bool, m: Machine)
    requires !c.Null? && Ready(w, c, ignored, m)
    ensures !Unwinding(m) && Parts(w, c, Ignoring(w, c, ignored), m)
  {
  }

  /** The flags of a tree stay sound when only those of its parts grow and stay sound. */
  lemma NodeKept(w: World, c: Command, ignored: bool, m: Machine, m2: Machine, ids: set<nat>)
    requires !c.Null? && Numbered(c) && Complete(c) && Sound(w, c, ignored, m.cmdFlags, m.innerFlags)
    requires Grows(m, m2, ids) && c.id !in ids && ids <= Ids(c) && Parts(w, c, Ignoring(w, c, ignored), m2)
    ensures Sound(w, c, ignored, m2.cmdFlags, m2.innerFlags) && Grows(m, m2, Ids(c))
  {
  }

  lemma SequenceRefines(w: World, c: Command, ignored: bool, m: Machine, fuel: nat)
    requires c.Pair? && c.connector == Sequence && Ready(w, c, ignored, m)
    ensures BodyAgrees(w, c, ignored, m, fuel)
    decreases c, 0, 0
  {
    hide Exec;
    hide Run;
    hide Sound;
    hide Numbered;
    hide Complete;
    hide Ids;
    var strays := RunBody(w, c, Ignoring(w, c, ignored), m.loopLevel, m.trace, fuel).Strays?;
    var i := Ignoring(w, c, ignored);
    PartsReady(w, c, ignored, m);
    var m1 := Mark(m, c.first, i);
    var m2 := Mark(m1, c.second, i);
    MarkChild(w, c.first, i, m, i);
    StaysReady(w, c.second, i, m, m1, Ids(c.first));
    MarkChild(w, c.second, i, m1, i);
    StaysReady(w, c.first, i, m1, m2, Ids(c.second));
    GrowsOn(m, m1, m2, Ids(c.first), Ids(c.second), Ids(c.first) + Ids(c.second));
    PartRefines(w, c.first, i, m2, false, fuel);
    var d := Exec(w, c.first, m2, fuel);
    if d.Returned? && !strays {
      GrowsOn(m, m2, d.m, Ids(c.first) + Ids(c.second), Ids(c.first), Ids(c.first) + Ids(c.second));
      StaysReady(w, c.second, i, m2, d.m, Ids(c.first));
      PartRefines(w, c.second, i, d.m, false, fuel);
      var e := Exec(w, c.second, d.m, fuel);
      if e.Returned? {
        GrowsOn(m, d.m, e.m, Ids(c.first) + Ids(c.second), Ids(c.second), Ids(c.first) + Ids(c.second));
        StaysReady(w, c.first, i, d.m, e.m, Ids(c.second));
        NodeKept(w, c, ignored, m, e.m, Ids(c.first) + Ids(c.second));
      }
    }
  }

  lemma AndOrRefines(w: World, c: Command, ignored: bool, m: Machine, fuel: nat)
    requires c.Pair? && c.connector != Sequence && Ready(w, c, ignored, m)
    ensures BodyAgrees(w, c, ignored, m, fuel)
    decreases c, 0, 0
  {
    hide Exec;
    hide Run;
    hide Sound;
    hide Numbered;
    hide Complete;
    hide Ids;
    var strays := RunBody(w, c, Ignoring(w, c, ignored), m.loopLevel, m.trace, fuel).Strays?;
    var i := Ignoring(w, c, ignored);
    PartsReady(w, c, ignored, m);
    PartRefines(w, c.first, true, m, true, fuel);
    var d := Exec(w, c.first, Mark(m, c.first, true), fuel);
    if d.Returned? && !strays {
      StaysReady(w, c.second, i, m, d.m, Ids(c.first));
      GrowsOn(m, d.m, d.m, Ids(c.first), {}, Ids(c.first) + Ids(c.second));
      if GoesOn(c.connector, d.status) {
        PartRefines(w, c.second, i, d.m, i, fuel);
        var e := Exec(w, c.second, Mark(d.m, c.second, i), fuel);
        if e.Returned? {
          GrowsOn(m, d.m, e.m, Ids(c.first), Ids(c.second), Ids(c.first) + Ids(c.second));
          StaysReady(w, c.first, true, d.m, e.m, Ids(c.second));
          NodeKept(w, c, ignored, m, e.m, Ids(c.first) + Ids(c.second));
        }
      } else {
        NodeKept(w, c, ignored, m, d.m, Ids(c.first) + Ids(c.second));
      }
    }
  }

  lemma FlagStays(m: Machine, m2: Machine, ids: set<nat>, id: nat)
    requires Grows(m, m2, ids) && id !in ids
    ensures id in m2.innerFlags <==> id in m.innerFlags
  {
  }

  lemma IfRefines(w: World, c: Command, ignored: bool, m: Machine, fuel: nat)
    requires c.If? && Ready(w, c, ignored, m)
    ensures BodyAgrees(w, c, ignored, m, fuel)
    decreases c, 0, 0
  {
    hide Exec;
    hide Run;
    hide Sound;
    hide Numbered;
    hide Complete;
    hide Ids;
    hide Grows;
    hide Ready;
    var strays := RunBody(w, c, Ignoring(w, c, ignored), m.loopLevel, m.trace, fuel).Strays?;
    var i := Ignoring(w, c, ignored);
    var m1 := MarkInner(m, c, i);
    InnerMark(w, c, ignored, m);
    PartsReady(w, c, ignored, m1);
    PartRefines(w, c.test, true, m1, true, fuel);
    var d := Exec(w, c.test, Mark(m1, c.test, true), fuel);
    if d.Returned? && !strays {
      FlagStays(m1, d.m, Ids(c.test), c.id);
      StaysReady(w, c.yes, i, m1, d.m, Ids(c.test));
      StaysReady(w, c.no, i, m1, d.m, Ids(c.test));
      var (part, other) := if d.status == EXECUTION_SUCCESS then (c.yes, c.no) else (c.no, c.yes);
      PartRefines(w, part, i, d.m, i, fuel);
      var e := Exec(w, part, Mark(d.m, part, i), fuel);
      if e.Returned? {
        IfEnds(w, c, ignored, m, m1, d.m, e.m, part, other);
      }
    }
  }

  /** The tree and its flags after the chosen part of an if. */
  lemma IfEnds(w: World, c: Command, ignored: bool, m: Machine, m1: Machine, d: Machine, e: Machine, part: Command,
               other: Command)
    requires c.If? && Ready(w, c, ignored, m1) && (part, other) in {(c.yes, c.no), (c.no, c.yes)}
    requires Grows(m, m1, {c.id}) && Grows(m1, d, Ids(c.test)) && Grows(d, e, Ids(part))
             && Sound(w, c.test, true, d.cmdFlags, d.innerFlags)
    requires var i := Ignoring(w, c, ignored);
             Sound(w, other, i, d.cmdFlags, d.innerFlags) && Sound(w, part, i, e.cmdFlags, e.innerFlags)
    ensures Grows(m, e, Ids(c)) && Sound(w, c, ignored, e.cmdFlags, e.innerFlags)
  {
    hide Sound;
    hide Numbered;
    hide Complete;
    hide Ids;
    hide Grows;
    PartsReady(w, c, ignored, m1);
    SoundElsewhere(w, c.test, true, d, e, Ids(part));
    SoundElsewhere(w, other, Ignoring(w, c, ignored), d, e, Ids(part));
    GrowsOn(m1, d, e, Ids(c.test), Ids(part), Ids(c.test) + Ids(c.yes) + Ids(c.no));
    NodeKept(w, c, ignored, m1, e, Ids(c.test) + Ids(c.yes) + Ids(c.no));
    GrowsOn(m, m1, e, {c.id}, Ids(c.test) + Ids(c.yes) + Ids(c.no), Ids(c));
  }

  // ----- a continue stays inside a loop's test -----

  /** Nothing went astray, and a continue that is handed on reaches no further than n loops. */
  predicate Stays(r: Outcome, n: nat) {
    !r.Strays? && (r.Ends? && r.control.Continues? ==> 0 < r.control.n <= n)
  }

  lemma {:induction false} ContainedRun(w: World, c: Command, ignored: bool, depth: nat, trace: Trace, fuel: nat, n: nat)
    requires Contained(c, n) && TestsContained(c)
    ensures Stays(Run(w, c, ignored, depth, trace, fuel), n)
    decreases c, 1, 0
  {
    hide RunTurns;
    hide RunWords;
    hide RunClauses;
    if !c.Null? {
      var i := Ignoring(w, c, ignored);
      match c {
        case Simple(_, _, _) =>
        case Group(_, _, body) => ContainedRun(w, body, i, depth, trace, fuel, n);
        case Pair(_, _, connector, first, second) =>
          ContainedRun(w, first, i || connector != Sequence, depth, trace, fuel, n);
          var r := Run(w, first, i || connector != Sequence, depth, trace, fuel);
          if r.Ends? {
            ContainedRun(w, second, i, depth, r.trace, fuel, n);
          }
        case If(_, _, test, yes, no) =>
          ContainedRun(w, test, true, depth, trace, fuel, n);
          var r := Run(w, test, true, depth, trace, fuel);
          if r.Ends? {
            ContainedRun(w, yes, i, depth, r.trace, fuel, n);
            ContainedRun(w, no, i, depth, r.trace, fuel, n);
          }
        case While(_, _, _, _, _) => ContainedTurns(w, c, i, depth, trace, EXECUTION_SUCCESS, fuel, n);
        case For(id, _, _) =>
          ContainedWords(w, c, i, depth, trace + [Expanded(id)], EXECUTION_SUCCESS, 0, w.wordCount(trace, id), fuel, n);
        case Case(id, _, clauses) =>
          ContainedClausesRun(w, clauses, i, depth, Ends(trace + [Expanded(id)], EXECUTION_SUCCESS, Normal), fuel, n);
      }
    }
  }

  lemma {:induction false} ContainedTurns(w: World, c: Command, ignored: bool, depth: nat, trace: Trace, last: int,
                                          fuel: nat, n: nat)
    requires c.While? && Contained(c, n) && TestsContained(c)
    ensures Stays(RunTurns(w, c, ignored, depth, trace, last, fuel), n)
    decreases c, 0, fuel
  {
    hide Run;
    if fuel > 0 {
      ContainedRun(w, c.test, true, depth + 1, trace, fuel, 0);
      var t := Run(w, c.test, true, depth + 1, trace, fuel);
      if t.Ends? && t.control == Normal {
        ContainedRun(w, c.body, ignored, depth + 1, t.trace, fuel, n + 1);
        var b := Run(w, c.body, ignored, depth + 1, t.trace, fuel);
        if b.Ends? {
          ContainedTurns(w, c, ignored, depth, b.trace, b.status, fuel - 1, n);
        }
      }
    }
  }

  lemma {:induction false} ContainedWords(w: World, c: Command, ignored: bool, depth: nat, trace: Trace, last: int, k: nat,
                                          count: nat,
                                          fuel: nat, n: nat)
    requires c.For? && Contained(c, n) && TestsContained(c)
    ensures Stays(RunWords(w, c, ignored, depth, trace, last, k, count, fuel), n)
    decreases c, 0, count - k
  {
    hide Run;
    if k < count {
      ContainedRun(w, c.body, ignored, depth + 1, trace + [Bound(c.id, k)], fuel, n + 1);
      var b := Run(w, c.body, ignored, depth + 1, trace + [Bound(c.id, k)], fuel);
      if b.Ends? {
        ContainedWords(w, c, ignored, depth, b.trace, b.status, k + 1, count, fuel, n);
      }
    }
  }

  lemma {:induction false} ContainedClausesRun(w: World, clauses: Clauses, ignored: bool, depth: nat, sofar: Outcome,
                                               fuel: nat, n: nat)
    requires ContainedClauses(clauses, n) && TestsContainedClauses(clauses) && Stays(sofar, n)
    ensures Stays(RunClauses(w, clauses, ignored, depth, sofar, fuel), n)
    decreases clauses, 1, 0
  {
    hide Run;
    hide RunActions;
    hide TryPatterns;
    if clauses.Clause? && sofar.Ends? {
      var (trace, found) := TryPatterns(w, clauses, 0, sofar.trace);
      var tried := Ends(trace, sofar.status, sofar.control);
      if found {
        ContainedActions(w, clauses, ignored, depth, tried, fuel, n);
      } else {
        ContainedClausesRun(w, clauses.next, ignored, depth, tried, fuel, n);
      }
    }
  }

  lemma {:induction false} ContainedActions(w: World, clauses: Clauses, ignored: bool, depth: nat, sofar: Outcome, fuel: nat,
                                            n: nat)
    requires clauses.Clause? && sofar.Ends? && ContainedClauses(clauses, n) && TestsContainedClauses(clauses) && Stays(sofar, n)
    ensures Stays(RunActions(w, clauses, ignored, depth, sofar, fuel), n)
    decreases clauses, 0, 0
  {
    hide Run;
    hide RunClauses;
    ContainedRun(w, clauses.action, ignored, depth, sofar.trace, fuel, n);
    var r := if sofar.control != Normal then sofar else Run(w, clauses.action, ignored, depth, sofar.trace, fuel);
    if r.Ends? {
      if clauses.fallThrough && clauses.next.Clause? {
        ContainedActions(w, clauses.next, ignored, depth, r, fuel, n);
      }
      ContainedClausesRun(w, clauses.next, ignored, depth, r, fuel, n);
    }
  }

  /** The furthest a continue of c reaches. */
  function Reach(c: Command): nat {
    match c
    case Null => 0
    case Simple(_, _, builtin) => if builtin.ContinueOn? && builtin.n > 0 then builtin.n else 0
    case Group(_, _, body) => Reach(body)
    case Pair(_, _, _, first, second) => Max(Reach(first), Reach(second))
    case If(_, _, test, yes, no) => Max(Reach(test), Max(Reach(yes), Reach(no)))
    case While(_, _, _, test, body) => Max(Reach(test), Reach(body))
    case For(_, _, body) => Reach(body)
    case Case(_, _, clauses) => ReachOfClauses(clauses)
  }

  function ReachOfClauses(clauses: Clauses): nat {
    if clauses.NoClauses? then 0 else Max(Reach(clauses.action), ReachOfClauses(clauses.next))
  }

  function Max(a: nat, b: nat): nat {
    if a < b then b else a
  }

  lemma {:induction false} ReachContains(c: Command, r: nat)
    requires Reach(c) <= r
    ensures Contained(c, r)
    decreases c
  {
    match c {
      case Group(_, _, body) => ReachContains(body, r);
      case Pair(_, _, _, first, second) =>
        ReachContains(first, r);
        ReachContains(second, r);
      case If(_, _, test, yes, no) =>
        ReachContains(test, r);
        ReachContains(yes, r);
        ReachContains(no, r);
      case While(_, _, _, test, body) =>
        ReachContains(test, r + 1);
        ReachContains(body, r + 1);
      case For(_, _, body) => ReachContains(body, r + 1);
      case Case(_, _, clauses) => ReachContainsClauses(clauses, r);
      case _ =>
    }
  }

  lemma {:induction false} ReachContainsClauses(clauses: Clauses, r: nat)
    requires ReachOfClauses(clauses) <= r
    ensures ContainedClauses(clauses, r)
    decreases clauses
  {
    if clauses.Clause? {
      ReachContains(clauses.action, r);
      ReachContainsClauses(clauses.next, r);
    }
  }

  /** When no continue leaves a loop's test, nothing ever goes astray. */
  lemma ContainedNeverStrays(w: World, c: Command, ignored: bool, depth: nat, trace: Trace, fuel: nat)
    requires TestsContained(c)
    ensures !Run(w, c, ignored, depth, trace, fuel).Strays?
  {
    hide Run;
    ReachContains(c, Reach(c));
    ContainedRun(w, c, ignored, depth, trace, fuel, Reach(c));
  }

  // ----- loops -----

  /** What a loop does to the counters after its body. */
  lemma BodyLeaves(m: Machine, control: Control, level: nat)
    requires Encodes(m, control, level + 1)
    ensures var (goesOn, m1) := AfterBody(m);
            && goesOn == NextTurn(control) && (goesOn ==> !Unwinding(m1)) && (!goesOn ==> Encodes(m1, Outward(control), level))
            && m1 == m.(breaking := m1.breaking, continuing := m1.continuing)
  {
  }

  /** What a loop does to the counters when its test ends it: right if and only if no continue is pending. */
  lemma TestLeaves(m: Machine, control: Control, level: nat)
    requires Encodes(m, control, level + 1)
    ensures Encodes(StopBreaking(m), Outward(control), level) <==> !control.Continues?
  {
  }

  /** The parts of a loop are ready for a turn. */
  predicate TurnReady(w: World, c: Command, ignored: bool, m: Machine)
    requires c.While?
  {
    && c.id !in Ids(c.test) + Ids(c.body) && Ids(c.test) !! Ids(c.body) && !c.test.Null? && !c.body.Null?
    && Ready(w, c.test, true, m) && Ready(w, c.body, ignored, m) && m.loopLevel > 0
  }

  /** The parts of a loop after its turns. */
  predicate TurnKept(w: World, c: Command, ignored: bool, m: Machine, d: Done)
    requires c.While?
  {
    d.Returned? ==>
      && Grows(m, d.m, Ids(c.test) + Ids(c.body)) && Sound(w, c.test, true, d.m.cmdFlags, d.m.innerFlags)
      && Sound(w, c.body, ignored, d.m.cmdFlags, d.m.innerFlags)
  }

  /** The turns of a loop do what they mean. */
  predicate TurnsAgree(w: World, c: Command, ignored: bool, m: Machine, last: int, fuel: nat)
    requires c.While? && m.loopLevel > 0
  {
    var d, r := ExecTurns(w, c, m, last, fuel), RunTurns(w, c, ignored, m.loopLevel - 1, m.trace, last, fuel);
    !r.Strays? ==> Agree(m.loopLevel - 1, LeaveLoop(d), r) && TurnKept(w, c, ignored, m, d)
  }

  /** The end of a turn: b is what the body did, or the test when the body was passed over. */
  lemma {:induction false} TurnEnds(w: World, c: Command, ignored: bool, m: Machine, m1: Machine, b: Done, rb: Outcome,
                                    last: int, fuel: nat)
    requires c.While? && TurnReady(w, c, ignored, m) && fuel > 0
    requires b.Returned? && Agree(m.loopLevel, b, rb) && Grows(m, m1, Ids(c.test)) && Grows(m1, b.m, Ids(c.body))
    requires Sound(w, c.test, true, m1.cmdFlags, m1.innerFlags) && Sound(w, c.body, ignored, b.m.cmdFlags, b.m.innerFlags)
    requires var (goesOn, m2) := AfterBody(b.m);
             ExecTurns(w, c, m, last, fuel) == if goesOn then ExecTurns(w, c, m2, b.status, fuel - 1) else Returned(m2, b.status)
    requires RunTurns(w, c, ignored, m.loopLevel - 1, m.trace, last, fuel)
          == if NextTurn(rb.control) then RunTurns(w, c, ignored, m.loopLevel - 1, rb.trace, rb.status, fuel - 1)
             else Ends(rb.trace, rb.status, Outward(rb.control))
    ensures TurnsAgree(w, c, ignored, m, last, fuel)
    decreases c, 0, fuel, 0
  {
    hide ExecTurns;
    hide RunTurns;
    hide Exec;
    hide Run;
    hide Sound;
    hide Numbered;
    hide Complete;
    hide Ids;
    BodyLeaves(b.m, rb.control, m.loopLevel - 1);
    GrowsOn(m, m1, b.m, Ids(c.test), Ids(c.body), Ids(c.test) + Ids(c.body));
    assert Sound(w, c.test, true, (AfterBody(b.m).1).cmdFlags, (AfterBody(b.m).1).innerFlags)
           && Sound(w, c.body, ignored, (AfterBody(b.m).1).cmdFlags, (AfterBody(b.m).1).innerFlags)
           && (!Unwinding(AfterBody(b.m).1) ==> TurnReady(w, c, ignored, AfterBody(b.m).1)) by {
      SoundElsewhere(w, c.test, true, m1, b.m, Ids(c.body));
    }
    if AfterBody(b.m).0 {
      TurnsRefine(w, c, ignored, AfterBody(b.m).1, b.status, fuel - 1);
      if !RunTurns(w, c, ignored, m.loopLevel - 1, rb.trace, rb.status, fuel - 1).Strays? {
      }
    }
  }

  /** The second half of a turn: the body, or what is unwound past it. */
  lemma {:induction false} BodyRefinesInTurn(w: World, c: Command, ignored: bool, m: Machine, t: Done, rt: Outcome,
                                             last: int, fuel: nat)
    requires c.While? && TurnReady(w, c, ignored, m) && fuel > 0
    requires t == Exec(w, c.test, m, fuel) && t.Returned? && (t.status == EXECUTION_SUCCESS) != c.until
    requires rt == Run(w, c.test, true, m.loopLevel, m.trace, fuel) && Agree(m.loopLevel, t, rt) && Recorded(c.test, t)
    requires Grows(m, t.m, Ids(c.test)) && Sound(w, c.test, true, t.m.cmdFlags, t.m.innerFlags)
    requires Sound(w, c.body, ignored, t.m.cmdFlags, t.m.innerFlags)
    requires !Unwinding(t.m) ==> Ready(w, c.body, ignored, t.m)
    ensures TurnsAgree(w, c, ignored, m, last, fuel)
    decreases c, 0, fuel, 1
  {
    hide Exec;
    hide Run;
    hide Sound;
    hide Numbered;
    hide Complete;
    hide Ids;
    if Unwinding(t.m) {
      UnwindsAtOnce(w, c.body, t.m, fuel);
      GrowsOn(t.m, t.m, t.m, {}, {}, Ids(c.body));
      TurnEnds(w, c, ignored, m, t.m, t, rt, last, fuel);
    } else {
      Refines(w, c.body, ignored, t.m, fuel);
      var b, rb := Exec(w, c.body, t.m, fuel), Run(w, c.body, ignored, m.loopLevel, t.m.trace, fuel);
      if b.Returned? && !rb.Strays? {
        TurnEnds(w, c, ignored, m, t.m, b, rb, last, fuel);
      }
    }
  }

  lemma {:induction false} TurnsRefine(w: World, c: Command, ignored: bool, m: Machine, last: int, fuel: nat)
    requires c.While? && TurnReady(w, c, ignored, m)
    ensures TurnsAgree(w, c, ignored, m, last, fuel)
    decreases c, 0, fuel, 2
  {
    hide Exec;
    hide Run;
    hide Sound;
    hide Numbered;
    hide Complete;
    hide Ids;
    if fuel > 0 {
      Refines(w, c.test, true, m, fuel);
      var t, rt := Exec(w, c.test, m, fuel), Run(w, c.test, true, m.loopLevel, m.trace, fuel);
      if t.Returned? && !rt.Strays? {
        StaysReady(w, c.body, ignored, m, t.m, Ids(c.test));
        GrowsOn(m, m, t.m, {}, Ids(c.test), Ids(c.test) + Ids(c.body));
        if (t.status == EXECUTION_SUCCESS) == c.until {
          TestLeaves(t.m, rt.control, m.loopLevel - 1);
        } else {
          BodyRefinesInTurn(w, c, ignored, m, t, rt, last, fuel);
        }
      }
    }
  }

  /** A turn whose test ends the loop: the interpreter does what leaving the loop means if and only if no continue is pending
      then. When one is, it stays pending as it is, one loop too far out. */
  lemma TestEndsLoop(w: World, c: Command, ignored: bool, m: Machine, last: int, fuel: nat)
    requires c.While? && TurnReady(w, c, ignored, m) && fuel > 0
    requires var t := Run(w, c.test, true, m.loopLevel, m.trace, fuel); t.Ends? && (t.status == EXECUTION_SUCCESS) == c.until
    ensures var t, d := Run(w, c.test, true, m.loopLevel, m.trace, fuel), LeaveLoop(ExecTurns(w, c, m, last, fuel));
            && (Agree(m.loopLevel - 1, d, Ends(t.trace, last, Outward(t.control))) <==> !t.control.Continues?)
            && (t.control.Continues? <==> RunTurns(w, c, ignored, m.loopLevel - 1, m.trace, last, fuel).Strays?)
            && (t.control.Continues? ==> d.Returned? && d.m.continuing == t.control.n)
  {
    hide Exec;
    hide Run;
    hide Sound;
    hide Numbered;
    hide Complete;
    hide Ids;
    Refines(w, c.test, true, m, fuel);
    TestLeaves(Exec(w, c.test, m, fuel).m, Run(w, c.test, true, m.loopLevel, m.trace, fuel).control, m.loopLevel - 1);
  }

  lemma WhileUnfolds(w: World, c: Command, m: Machine, i: bool, m1: Machine, m2: Machine, trace: Trace, depth: nat, fuel: nat)
    requires c.While? && m1 == MarkInner(m, c, i) && (c.id in m1.innerFlags <==> i)
    requires m2 == Mark(Mark(m1.(loopLevel := m1.loopLevel + 1), c.test, true), c.body, i)
    ensures ExecBody(w, c, m, i, fuel) == LeaveLoop(ExecTurns(w, c, m2, EXECUTION_SUCCESS, fuel))
    ensures RunBody(w, c, i, depth, trace, fuel) == RunTurns(w, c, i, depth, trace, EXECUTION_SUCCESS, fuel)
  {
    hide ExecTurns;
    hide RunTurns;
  }

  lemma WhileRefines(w: World, c: Command, ignored: bool, m: Machine, fuel: nat)
    requires c.While? && Ready(w, c, ignored, m)
    ensures BodyAgrees(w, c, ignored, m, fuel)
    decreases c, 1, 0
  {
    hide ExecBody;
    hide RunBody;
    hide ExecTurns;
    hide RunTurns;
    hide Numbered;
    hide Complete;
    hide Sound;
    hide Ids;
    var strays := RunBody(w, c, Ignoring(w, c, ignored), m.loopLevel, m.trace, fuel).Strays?;
    var i := Ignoring(w, c, ignored);
    var m1 := MarkInner(m, c, i);
    var m2 := Mark(Mark(m1.(loopLevel := m1.loopLevel + 1), c.test, true), c.body, i);
    InnerMark(w, c, ignored, m);
    PartsReady(w, c, ignored, m1);
    assert TurnReady(w, c, i, m2) && Grows(m1, m2, Ids(c.test) + Ids(c.body)) by {
      PartsReady(w, c, ignored, m1);
      var m0 := m1.(loopLevel := m1.loopLevel + 1);
      var m1 := Mark(m0, c.test, true);
      MarkChild(w, c.test, true, m0, true);
      SoundElsewhere(w, c.body, i, m0, m1, Ids(c.test));
      MarkChild(w, c.body, i, m1, i);
      SoundElsewhere(w, c.test, true, m1, m2, Ids(c.body));
      GrowsOn(m0, m1, m2, Ids(c.test), Ids(c.body), Ids(c.test) + Ids(c.body));
    }
    WhileUnfolds(w, c, m, i, m1, m2, m.trace, m.loopLevel, fuel);
    TurnsRefine(w, c, i, m2, EXECUTION_SUCCESS, fuel);
    var d := ExecTurns(w, c, m2, EXECUTION_SUCCESS, fuel);
    if d.Returned? && !strays {
      NodeKept(w, c, ignored, m1, d.m, Ids(c.test) + Ids(c.body));
      GrowsOn(m, m1, d.m, {c.id}, Ids(c.test) + Ids(c.body), Ids(c));
    }
  }

  // ----- for -----

  predicate WordReady(w: World, c: Command, ignored: bool, m: Machine)
    requires c.For?
  {
    c.id !in Ids(c.body) && !c.body.Null? && Ready(w, c.body, ignored, m) && m.loopLevel > 0
  }

  predicate WordKept(w: World, c: Command, ignored: bool, m: Machine, d: Done)
    requires c.For?
  {
    d.Returned? ==> Grows(m, d.m, Ids(c.body)) && Sound(w, c.body, ignored, d.m.cmdFlags, d.m.innerFlags)
  }

  lemma {:induction false} WordsRefine(w: World, c: Command, ignored: bool, m: Machine, retval: int, k: nat, n: nat, fuel: nat)
    requires c.For? && WordReady(w, c, ignored, m)
    ensures var d, r := ExecWords(w, c, m, retval, k, n, fuel), RunWords(w, c, ignored, m.loopLevel - 1, m.trace, retval, k, n, fuel);
            !r.Strays? ==> Agree(m.loopLevel - 1, LeaveLoop(d), r) && WordKept(w, c, ignored, m, d)
    decreases c, 0, n - k
  {
    hide Exec;
    hide Run;
    hide Numbered;
    hide Complete;
    hide Sound;
    hide Ids;
    if k < n && w.binds(m.trace, c.id, k) {
      var m1 := m.(trace := m.trace + [Bound(c.id, k)]);
      Refines(w, c.body, ignored, m1, fuel);
      var b, rb := Exec(w, c.body, m1, fuel), Run(w, c.body, ignored, m.loopLevel, m1.trace, fuel);
      if b.Returned? && !rb.Strays? {
        BodyLeaves(b.m, rb.control, m.loopLevel - 1);
        if AfterBody(b.m).0 {
          WordsRefine(w, c, ignored, AfterBody(b.m).1, b.status, k + 1, n, fuel);
          var d := ExecWords(w, c, AfterBody(b.m).1, b.status, k + 1, n, fuel);
          if d.Returned? && !RunWords(w, c, ignored, m.loopLevel - 1, rb.trace, b.status, k + 1, n, fuel).Strays? {
            GrowsOn(m, AfterBody(b.m).1, d.m, Ids(c.body), Ids(c.body), Ids(c.body));
          }
        }
      }
    }
  }

  lemma ForRefines(w: World, c: Command, ignored: bool, m: Machine, fuel: nat)
    requires c.For? && Ready(w, c, ignored, m)
    ensures BodyAgrees(w, c, ignored, m, fuel)
    decreases c, 1, 0
  {
    hide ExecWords;
    hide RunWords;
    hide Numbered;
    hide Complete;
    hide Sound;
    hide Ids;
    var strays := RunBody(w, c, Ignoring(w, c, ignored), m.loopLevel, m.trace, fuel).Strays?;
    var i := Ignoring(w, c, ignored);
    var m1 := MarkInner(m, c, i);
    InnerMark(w, c, ignored, m);
    PartsReady(w, c, ignored, m1);
    if w.isIdentifier(c.id) {
      var m2 := m1.(loopLevel := m1.loopLevel + 1, trace := m1.trace + [Expanded(c.id)]);
      var m3 := Mark(m2, c.body, i);
      MarkChild(w, c.body, i, m2, i);
      WordsRefine(w, c, i, m3, EXECUTION_SUCCESS, 0, w.wordCount(m.trace, c.id), fuel);
      var d := ExecWords(w, c, m3, EXECUTION_SUCCESS, 0, w.wordCount(m.trace, c.id), fuel);
      if d.Returned? && !strays {
        GrowsOn(m1, m3, d.m, Ids(c.body), Ids(c.body), Ids(c.body));
        NodeKept(w, c, ignored, m1, d.m, Ids(c.body));
        GrowsOn(m, m1, d.m, {c.id}, Ids(c.body), Ids(c));
      }
    } else {
      GrowsOn(m, m1, m1, {c.id}, {}, Ids(c));
    }
  }

  // ----- case -----

  /** The clauses still to be gone through, with what the machine has so far. */
  predicate ClauseReady(w: World, clauses: Clauses, ignored: bool, m: Machine, retval: int, control: Control) {
    && NumberedClauses(clauses) && CompleteClauses(clauses) && SoundClauses(w, clauses, ignored, m.cmdFlags, m.innerFlags)
    && Encodes(m, control, m.loopLevel) && (Unwinding(m) ==> m.last == retval)
  }

  predicate ClauseKept(w: World, clauses: Clauses, ignored: bool, m: Machine, d: Done) {
    d.Returned? ==> Grows(m, d.m, ClauseIds(clauses)) && SoundClauses(w, clauses, ignored, d.m.cmdFlags, d.m.innerFlags)
  }

  lemma {:induction false} ClausesRefine(w: World, clauses: Clauses, ignored: bool, m: Machine, retval: int,
                                         control: Control, fuel: nat)
    requires ClauseReady(w, clauses, ignored, m, retval, control)
    ensures var d := ExecClauses(w, clauses, ignored, m, retval, fuel);
            var r := RunClauses(w, clauses, ignored, m.loopLevel, Ends(m.trace, retval, control), fuel);
            !r.Strays? ==> Agree(m.loopLevel, d, r) && ClauseKept(w, clauses, ignored, m, d)
    decreases clauses, 1, 0
  {
    hide Exec;
    hide Run;
    hide ExecActions;
    hide RunActions;
    hide Sound;
    hide Numbered;
    hide Complete;
    hide Ids;
    hide TryPatterns;
    if clauses.Clause? {
      var (trace, found) := TryPatterns(w, clauses, 0, m.trace);
      var m1 := m.(trace := trace);
      if found {
        ActionsRefine(w, clauses, ignored, m1, retval, control, fuel);
      } else {
        ClausesRefine(w, clauses.next, ignored, m1, retval, control, fuel);
        if !RunClauses(w, clauses, ignored, m.loopLevel, Ends(m.trace, retval, control), fuel).Strays? {
          NextClauseKept(w, clauses, ignored, m, m1, ExecClauses(w, clauses.next, ignored, m1, retval, fuel));
        }
      }
    }
  }

  lemma NextClauseKept(w: World, clauses: Clauses, ignored: bool, m: Machine, m1: Machine, d: Done)
    requires clauses.Clause? && NumberedClauses(clauses) && Sound(w, clauses.action, ignored, m1.cmdFlags, m1.innerFlags)
    requires Grows(m, m1, Ids(clauses.action)) && ClauseKept(w, clauses.next, ignored, m1, d)
    ensures ClauseKept(w, clauses, ignored, m, d)
  {
    hide Sound;
    if d.Returned? {
      SoundElsewhere(w, clauses.action, ignored, m1, d.m, ClauseIds(clauses.next));
    }
  }

  lemma {:induction false} ActionsRefine(w: World, clauses: Clauses, ignored: bool, m: Machine, retval: int,
                                         control: Control, fuel: nat)
    requires clauses.Clause? && ClauseReady(w, clauses, ignored, m, retval, control)
    ensures var d := ExecActions(w, clauses, ignored, m, fuel);
            var r := RunActions(w, clauses, ignored, m.loopLevel, Ends(m.trace, retval, control), fuel);
            !r.Strays? ==> Agree(m.loopLevel, d, r) && ClauseKept(w, clauses, ignored, m, d)
    decreases clauses, 0, 0
  {
    hide Exec;
    hide Run;
    hide ExecClauses;
    hide RunClauses;
    hide Sound;
    hide Numbered;
    hide Complete;
    hide Ids;
    PartRefines(w, clauses.action, ignored, m, ignored, fuel);
    var d := Exec(w, clauses.action, Mark(m, clauses.action, ignored), fuel);
    var r := if control != Normal then Ends(m.trace, retval, control) else Run(w, clauses.action, ignored, m.loopLevel, m.trace, fuel);
    if d.Returned? && !RunActions(w, clauses, ignored, m.loopLevel, Ends(m.trace, retval, control), fuel).Strays? {
      ClausesSoundElsewhere(w, clauses.next, ignored, m, d.m, Ids(clauses.action));
      if clauses.fallThrough && clauses.next.Clause? {
        ActionsRefine(w, clauses.next, ignored, d.m, d.status, r.control, fuel);
        NextClauseKept(w, clauses, ignored, m, d.m, ExecActions(w, clauses.next, ignored, d.m, fuel));
      } else if !clauses.fallThrough && clauses.testNext {
        ClausesRefine(w, clauses.next, ignored, d.m, d.status, r.control, fuel);
        NextClauseKept(w, clauses, ignored, m, d.m, ExecClauses(w, clauses.next, ignored, d.m, d.status, fuel));
      } else {
        NextClauseKept(w, clauses, ignored, m, d.m, d);
      }
    }
  }

  lemma CaseRefines(w: World, c: Command, ignored: bool, m: Machine, fuel: nat)
    requires c.Case? && Ready(w, c, ignored, m)
    ensures BodyAgrees(w, c, ignored, m, fuel)
    decreases c, 0, 0
  {
    hide ExecClauses;
    hide RunClauses;
    hide NumberedClauses;
    hide CompleteClauses;
    hide Numbered;
    hide Complete;
    hide Sound;
    hide SoundClauses;
    hide Ids;
    var strays := RunBody(w, c, Ignoring(w, c, ignored), m.loopLevel, m.trace, fuel).Strays?;
    var i := Ignoring(w, c, ignored);
    var m1 := MarkInner(m, c, i);
    InnerMark(w, c, ignored, m);
    PartsReady(w, c, ignored, m1);
    var m2 := m1.(trace := m1.trace + [Expanded(c.id)]);
    ClausesRefine(w, c.clauses, i, m2, EXECUTION_SUCCESS, Normal, fuel);
    var d := ExecClauses(w, c.clauses, i, m2, EXECUTION_SUCCESS, fuel);
    if d.Returned? && !strays {
      NodeKept(w, c, ignored, m1, d.m, ClauseIds(c.clauses));
      GrowsOn(m, m1, d.m, {c.id}, ClauseIds(c.clauses), Ids(c));
    }
  }
}

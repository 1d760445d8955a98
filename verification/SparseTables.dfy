/** What the operations of array.c mean for a plain map from indices to values, and that entries agree with it. */
module SparseTables {
  import opened SparseEntries

  type Table = map<int, Value>

  /** How many keys lie below k. */
  function Below(m: Table, k: int): nat {
    |set j | j in m && j < k|
  }

  /** The n smallest keys with their values. */
  function Smallest(m: Table, n: int): Table {
    map k | k in m && Below(m, k) < n :: m[k]
  }

  function KeysMoved(keys: set<int>, delta: int): set<int> {
    set k | k in keys :: k + delta
  }

  /** Every key moved by delta. */
  function Moved(m: Table, delta: int): Table {
    map i | i in KeysMoved(m.Keys, delta) && i - delta in m :: m[i - delta]
  }

  lemma InMoved(m: Table, delta: int, i: int)
    ensures i in Moved(m, delta) <==> i - delta in m
    ensures i in Moved(m, delta) ==> Moved(m, delta)[i] == m[i - delta]
  {
    if i - delta in m {
      assert (i - delta) + delta in KeysMoved(m.Keys, delta);
    }
  }

  /** All but the n smallest keys, moved down by n. */
  function MovedDown(m: Table, n: int): Table {
    Moved(m - Smallest(m, n).Keys, -n)
  }

  /** All keys moved up by n, and a new value at 0 unless it is null. */
  function MovedUp(m: Table, n: int, s: Value): Table {
    Moved(m, n) + if s.Null? then map[] else map[0 := s]
  }

  lemma InMovedDown(m: Table, n: int, i: int)
    ensures i in MovedDown(m, n) <==> i + n in m && Below(m, i + n) >= n
    ensures i in MovedDown(m, n) ==> MovedDown(m, n)[i] == m[i + n]
  {
    hide Below;
    hide Moved;
    InMoved(m - Smallest(m, n).Keys, -n, i);
  }

  lemma InMovedUp(m: Table, n: int, s: Value, i: int)
    ensures i in MovedUp(m, n, s) <==> i - n in m || (i == 0 && s != Null)
    ensures i == 0 && s != Null ==> MovedUp(m, n, s)[i] == s
    ensures (i != 0 || s == Null) && i - n in m ==> MovedUp(m, n, s)[i] == m[i - n]
  {
    hide Moved;
    InMoved(m, n, i);
  }

  /** A key has as many keys below it as its entry has in front. */
  lemma {:induction false} EntriesInFront(es: seq<Entry>, k: nat)
    requires Increasing(es) && k < |es|
    ensures Below(ToMap(es), es[k].ind) == k
  {
    hide ToMap;
    var front := es[..k];
    forall i ensures i in ToMap(front) <==> i in ToMap(es) && i < es[k].ind {
      KeysAreIndices(front, i);
      KeysAreIndices(es, i);
      if j :| 0 <= j < |es| && es[j].ind == i && i < es[k].ind {
        assert front[j].ind == i;
      }
    }
    CountAndMax(front);
    assert (set j | j in ToMap(es) && j < es[k].ind) == ToMap(front).Keys;
  }

  /** The first n entries are the n smallest keys. */
  lemma SmallestAreFirst(es: seq<Entry>, n: nat)
    requires Increasing(es)
    ensures Smallest(ToMap(es), n) == ToMap(es[..if n < |es| then n else |es|])
  {
    hide ToMap;
    var m := if n < |es| then n else |es|;
    var front, least := es[..m], Smallest(ToMap(es), n);
    forall i ensures i in least <==> i in ToMap(front) {
      KeysAreIndices(front, i);
      KeysAreIndices(es, i);
      if j :| 0 <= j < |es| && es[j].ind == i {
        EntriesInFront(es, j);
        if j < m {
          assert front[j].ind == i;
        }
      }
    }
    forall i | i in ToMap(front) ensures least[i] == ToMap(front)[i] {
      KeysAreIndices(front, i);
      var j :| 0 <= j < |front| && front[j].ind == i;
      ValueAt(front, j);
      ValueAt(es, j);
    }
  }

  /** A left shift drops the n smallest keys and moves the rest down. */
  lemma MovedDownIsShift(es: seq<Entry>, n: nat)
    requires Increasing(es)
    ensures MovedDown(ToMap(es), n) == ToMap(ShiftedLeft(es, n))
  {
    hide ToMap;
    hide MovedDown;
    hide ShiftedLeft;
    hide Below;
    var down, left := MovedDown(ToMap(es), n), ToMap(ShiftedLeft(es, n));
    forall i ensures (i in down <==> i in left) && (i in left ==> down[i] == left[i]) {
      assert (i in ToMap(ShiftedLeft(es, n)) <==> i + n in ToMap(es) && Below(ToMap(es), i + n) >= n)
             && (i in ToMap(ShiftedLeft(es, n)) ==> ToMap(ShiftedLeft(es, n))[i] == ToMap(es)[i + n]) by {
        KeysAreIndices(es, i + n);
        if i + n in ToMap(es) {
          var j :| 0 <= j < |es| && es[j].ind == i + n;
          EntriesInFront(es, j);
        }
        if n < |es| {
          ShiftedLeftIsRenumbering(es, n, i);
        } else {
          NothingLeft(es, n, i);
        }
      }
      InMovedDown(ToMap(es), n, i);
    }
  }

  lemma NothingLeft(es: seq<Entry>, n: nat, i: int)
    requires |es| <= n
    ensures i !in ToMap(ShiftedLeft(es, n))
  {
  }

  /** A right shift moves every key up and puts the new value at 0. */
  lemma MovedUpIsShift(es: seq<Entry>, n: nat, s: Value)
    requires Increasing(es) && n > 0
    ensures MovedUp(ToMap(es), n, s) == ToMap(ShiftedRight(es, n, s))
  {
    hide ToMap;
    hide ShiftedRight;
    hide MovedUp;
    var up, right := MovedUp(ToMap(es), n, s), ToMap(ShiftedRight(es, n, s));
    CountAndMax(es);
    FirstAfterRightShift(es, n, s);
    forall i ensures (i in up <==> i in right) && (i in right ==> up[i] == right[i]) {
      InMovedUp(ToMap(es), n, s, i);
      if i != 0 {
        ShiftedRightIsRenumbering(es, n, s, i);
      }
    }
  }

  // ----- operations -----

  datatype Op =
    | Insert(at: nat, v: Value)
    | Remove(i: int)
    | Reference(i: int)
    | Shift(n: int, dispose: bool)
    | RShift(n: int, s: Value)
    | Flush
    | Dispose

  /** Failed: array_insert on a null array. Taken: the elements an operation hands out. */
  datatype Reply = Nothing | Failed | Found(v: Value) | Taken(m: Table) | Size(n: nat)

  /** The map after an operation on it. */
  function After(m: Table, op: Op): Table {
    match op
    case Insert(i, v) => m[i := v]
    case Remove(i) => m - {i}
    case Reference(_) => m
    case Shift(n, _) => if n <= 0 then m else MovedDown(m, n)
    case RShift(n, s) => if n <= 0 then m else MovedUp(m, n, s)
    case Flush => map[]
    case Dispose => map[]
  }

  /** What an operation on it replies. */
  function ReplyOf(m: Table, op: Op): Reply {
    match op
    case Insert(_, _) => Nothing
    case Remove(i) => Taken(if i in m then map[i := m[i]] else map[])
    case Reference(i) => Found(if i in m then m[i] else Null)
    case Shift(n, dispose) => Taken(if n > 0 && !dispose then Smallest(m, n) else map[])
    case RShift(_, _) => Size(|After(m, op)|)
    case Flush => Nothing
    case Dispose => Nothing
  }

  /** What an operation on a null array replies. */
  function NullReply(op: Op): Reply {
    match op
    case Insert(_, _) => Failed
    case Remove(_) => Taken(map[])
    case Reference(_) => Found(Null)
    case Shift(_, _) => Taken(map[])
    case RShift(_, _) => Size(0)
    case Flush => Nothing
    case Dispose => Nothing
  }

  // ----- runs -----

  /** A step of a run: arrays are numbered in the order in which they come to be. */
  datatype Step = Create | Copy(a: nat) | Do(a: nat, op: Op)

  /** An array variable: the null pointer, or an array. */
  datatype Slot = Gone | Holds(m: Table)

  function SlotOf(store: seq<Slot>, a: nat): Slot {
    if a < |store| then store[a] else Gone
  }

  function StoreAfter(store: seq<Slot>, step: Step): seq<Slot> {
    match step
    case Create => store + [Holds(map[])]
    case Copy(a) => store + [SlotOf(store, a)]
    case Do(a, op) =>
      if SlotOf(store, a).Gone? then store
      else store[a := if op.Dispose? then Gone else Holds(After(store[a].m, op))]
  }

  function StepReply(store: seq<Slot>, step: Step): Reply {
    match step
    case Create => Nothing
    case Copy(_) => Nothing
    case Do(a, op) => if SlotOf(store, a).Gone? then NullReply(op) else ReplyOf(store[a].m, op)
  }

  /** The replies of a run on plain maps. */
  function Replies(store: seq<Slot>, steps: seq<Step>): (replies: seq<Reply>)
    decreases |steps|
  {
    if steps == [] then []
    else [StepReply(store, steps[0])] + Replies(StoreAfter(store, steps[0]), steps[1..])
  }

  /** Unshifting a value and shifting by one gives the map back, the empty one included. */
  lemma UnshiftThenShift(es: seq<Entry>, s: Value, dispose: bool)
    requires Increasing(es) && s != Null
    ensures After(After(ToMap(es), RShift(1, s)), Shift(1, dispose)) == ToMap(es)
    ensures ReplyOf(After(ToMap(es), RShift(1, s)), Shift(1, false)) == Taken(map[0 := s])
  {
    hide ToMap;
    hide MovedUp;
    hide MovedDown;
    hide Smallest;
    var right := ShiftedRight(es, 1, s);
    MovedUpIsShift(es, 1, s);
    ShiftedRightIncreases(es, 1, s);
    MovedDownIsShift(right, 1);
    ShiftUndoesUnshift(es, s);
    SmallestAreFirst(right, 1);
    OneEntry(right);
  }

  lemma OneEntry(es: seq<Entry>)
    requires es != []
    ensures ToMap(es[..1]) == map[es[0].ind := es[0].value]
  {
    assert es[..1][1..] == [];
  }
}

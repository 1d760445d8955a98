/** Runs of array.c's operations on any number of arrays, which share one cursor: they reply what plain maps reply. */
module SparseRuns {
  import opened SparseEntries
  import opened SparseTables
  import opened SparseArray

  ghost function TableOf(a: Arr): Table
    reads a, a.ring`ind, a.ring`value
  {
    ToMap(a.Contents())
  }

  // ----- one array -----

  /** An entry behind all others adds its key. */
  lemma {:induction false} OneEntryMore(es: seq<Entry>, e: Entry)
    requires Increasing(es + [e])
    ensures ToMap(es + [e]) == ToMap(es)[e.ind := e.value]
  {
    if es != [] {
      assert (es + [e])[1..] == es[1..] + [e];
      OneEntryMore(es[1..], e);
      assert (es + [e])[0].ind < (es + [e])[|es|].ind;
    } else {
      assert (es + [e])[1..] == [];
    }
  }

  /** Walks along a chain that array_shift handed out. */
  method ReadChain(first: Element, ghost chain: seq<Element>) returns (m: Table)
    requires Chained(chain) && first == chain[0] && Increasing(Entries(chain))
    ensures m == ToMap(Entries(chain))
  {
    hide ToMap;
    var ae: Element? := first;
    m := map[];
    ghost var k := 0;
    NoEntries();
    while ae != null
      invariant k <= |chain| && ae == if k < |chain| then chain[k] else null
      invariant m == ToMap(Entries(chain)[..k])
      decreases |chain| - k
    {
      EntriesAt(chain);
      ghost var es := Entries(chain);
      assert es[..k + 1] == es[..k] + [es[k]];
      OneEntryMore(es[..k], es[k]);
      m := m[ae.ind := ae.value];
      ae := ae.next;
      k := k + 1;
    }
    assert Entries(chain)[..k] == Entries(chain);
  }

  lemma NoEntries()
    ensures ToMap([]) == map[]
  {
  }

  method OnArray(c: Cursor, a: Arr, op: Op) returns (reply: Reply)
    requires c.Sound() && a.Valid()
    modifies c, Footprint(a)
    ensures c.Sound() && a.Valid() && Grown(a, old(a.ring))
    ensures TableOf(a) == After(old(TableOf(a)), op)
    ensures reply == ReplyOf(old(TableOf(a)), op)
  {
    hide ToMap;
    hide Put;
    hide Without;
    hide Increasing;
    hide Distinct;
    hide Linked;
    hide Entries;
    hide Owned;
    hide ShiftedLeft;
    hide ShiftedRight;
    hide MovedDown;
    hide MovedUp;
    hide Smallest;
    hide Chained;
    ghost var es := a.Contents();
    match op
    case Insert(i, v) =>
      PutIsUpdate(es, i, v);
      var _ := c.Insert(a, i, v);
      reply := Nothing;
    case Remove(i) =>
      WithoutIsRemoval(es, i);
      var e := c.Remove(a, i);
      reply := Taken(if e == null then map[] else map[e.ind := e.value]);
    case Reference(i) =>
      var v := c.Reference(a, i);
      reply := Found(v);
    case Shift(n, dispose) =>
      reply := ShiftOn(c, a, n, dispose);
    case RShift(n, s) =>
      if n > 0 {
        MovedUpIsShift(es, n, s);
      }
      var num := c.RShift(a, n, s);
      CountAndMax(a.Contents());
      reply := Size(num);
    case Flush =>
      NoEntries();
      c.Flush(a);
      reply := Nothing;
    case Dispose =>
      NoEntries();
      c.Dispose(a);
      reply := Nothing;
  }

  method ShiftOn(c: Cursor, a: Arr, n: int, dispose: bool) returns (reply: Reply)
    requires c.Sound() && a.Valid()
    modifies c, Footprint(a)
    ensures c.Sound() && a.Valid() && Grown(a, old(a.ring))
    ensures TableOf(a) == After(old(TableOf(a)), Shift(n, dispose))
    ensures reply == ReplyOf(old(TableOf(a)), Shift(n, dispose))
  {
    hide ToMap;
    hide Increasing;
    hide Distinct;
    hide Linked;
    hide Entries;
    hide Owned;
    hide ShiftedLeft;
    hide MovedUp;
    hide MovedDown;
    hide Smallest;
    hide Chained;
    ghost var es, ring := a.Contents(), a.ring;
    NoEntries();
    if n > 0 {
      MovedDownIsShift(es, n);
      SmallestAreFirst(es, n);
    }
    var ret := c.Shift(a, n, dispose);
    if ret == null {
      reply := Taken(map[]);
    } else {
      ghost var m := if n < |es| then n else |es|;
      FrontIncreases(es, m);
      var gone := ReadChain(ret, ring[1..m + 1]);
      reply := Taken(gone);
    }
  }

  lemma FrontIncreases(es: seq<Entry>, m: nat)
    requires Increasing(es) && m <= |es|
    ensures Increasing(es[..m])
  {
  }

  method OnNull(c: Cursor, op: Op) returns (reply: Reply)
    requires c.Sound()
    modifies c
    ensures c.Sound() && reply == NullReply(op)
  {
    hide Increasing;
    hide Distinct;
    hide Linked;
    hide Entries;
    hide Owned;
    hide ToMap;
    hide Put;
    hide Without;
    hide ShiftedLeft;
    hide ShiftedRight;
    hide Chained;
    hide Cursor.Sound;
    match op
    case Insert(i, v) =>
      var r := c.Insert(null, i, v);
      reply := if r < 0 then Failed else Nothing;
    case Remove(i) =>
      var _ := c.Remove(null, i);
      reply := Taken(map[]);
    case Reference(i) =>
      var v := c.Reference(null, i);
      reply := Found(v);
    case Shift(n, dispose) =>
      var _ := c.Shift(null, n, dispose);
      reply := Taken(map[]);
    case RShift(n, s) =>
      var num := c.RShift(null, n, s);
      reply := Size(num);
    case Flush =>
      c.Flush(null);
      reply := Nothing;
    case Dispose =>
      c.Dispose(null);
      reply := Nothing;
  }

  // ----- many arrays -----

  ghost function Arrays(pool: seq<Arr?>): set<object> {
    set k | 0 <= k < |pool| && pool[k] != null :: pool[k]
  }

  ghost function Everything(pool: seq<Arr?>): set<object>
    reads Arrays(pool)
  {
    Arrays(pool) + set k, e | 0 <= k < |pool| && pool[k] != null && e in pool[k].ring :: e
  }

  /** The arrays are well formed, no two variables share one, and each stands for its map. */
  ghost predicate StandsFor(pool: seq<Arr?>, store: seq<Slot>)
    reads Arrays(pool), Everything(pool)
  {
    && |pool| == |store|
    && (forall k :: 0 <= k < |pool| ==> SlotStands(pool[k], store[k]))
    && (forall j, k :: 0 <= j < k < |pool| && pool[j] != null ==> pool[j] != pool[k])
  }

  ghost predicate SlotStands(a: Arr?, slot: Slot)
    reads Footprint(a)
  {
    match slot
    case Gone => a == null
    case Holds(m) => a != null && a.Valid() && TableOf(a) == m
  }

  /** Two array variables have no element in common. */
  ghost predicate Apart(pool: seq<Arr?>, a: nat, k: nat)
    requires a < |pool| && k < |pool|
    reads Arrays(pool)
  {
    pool[a] != null && pool[k] != null && a != k ==> pool[a] != pool[k] && forall e :: e in pool[k].ring ==> e !in pool[a].ring
  }

  lemma AllApart(pool: seq<Arr?>, store: seq<Slot>, a: nat, k: nat)
    requires StandsFor(pool, store) && a < |pool| && k < |pool|
    ensures Apart(pool, a, k)
  {
    hide Arr.Counted;
    hide Distinct;
    hide Linked;
    assert SlotStands(pool[a], store[a]) && SlotStands(pool[k], store[k]);
    if pool[a] != null && pool[k] != null && a != k {
      OtherApart(pool[a], pool[k]);
    }
  }

  /** Nothing of an array has changed. */
  twostate predicate Kept(b: Arr?)
    reads Footprint(b)
  {
    b != null ==> unchanged(b) && forall e :: e in b.ring ==> unchanged(e)
  }

  /** Nothing of the other arrays has changed. */
  twostate predicate OthersKept(pool: seq<Arr?>, a: nat)
    reads Arrays(pool), Everything(pool)
  {
    forall k :: 0 <= k < |pool| && k != a ==> Kept(pool[k])
  }

  twostate lemma StillStands(b: Arr)
    requires old(b.Valid()) && unchanged(b) && forall e :: e in b.ring ==> unchanged(e)
    ensures b.Valid() && TableOf(b) == old(TableOf(b))
  {
    StillValid(b);
  }

  /** An operation on one array changes nothing of the others. */
  method OnOne(c: Cursor, pool: seq<Arr?>, a: nat, op: Op, ghost store: seq<Slot>) returns (reply: Reply)
    requires c.Sound() && StandsFor(pool, store) && a < |pool| && pool[a] != null
    modifies c, Footprint(pool[a])
    ensures c.Sound() && SlotStands(pool[a], Holds(After(store[a].m, op))) && reply == ReplyOf(store[a].m, op)
    ensures Grown(pool[a], old(pool[a].ring)) && OthersKept(pool, a)
  {
    hide After;
    hide ReplyOf;
    hide Arr.Valid;
    hide TableOf;
    hide Cursor.Sound;
    assert SlotStands(pool[a], store[a]);
    forall k | 0 <= k < |pool| ensures Apart(pool, a, k) {
      AllApart(pool, store, a, k);
    }
    reply := OnArray(c, pool[a], op);
    forall k | 0 <= k < |pool| && k != a ensures Kept(pool[k]) {
      assert old(Apart(pool, a, k));
    }
  }

  method OnSlot(c: Cursor, pool: seq<Arr?>, a: nat, op: Op, ghost store: seq<Slot>) returns (reply: Reply)
    requires c.Sound() && StandsFor(pool, store) && a < |pool| && pool[a] != null
    modifies c, Footprint(pool[a])
    ensures c.Sound() && SlotStands(pool[a], Holds(After(store[a].m, op))) && reply == ReplyOf(store[a].m, op)
    ensures Grown(pool[a], old(pool[a].ring)) && OthersKept(pool, a)
    ensures forall k :: 0 <= k < |pool| && k != a ==> SlotStands(pool[k], store[k])
  {
    hide After;
    hide ReplyOf;
    hide Arr.Valid;
    hide TableOf;
    hide Cursor.Sound;
    assert forall k :: 0 <= k < |pool| ==> SlotStands(pool[k], store[k]);
    reply := OnOne(c, pool, a, op, store);
    ghost var k := 0;
    while k < |pool|
      invariant k <= |pool| && c.Sound() && SlotStands(pool[a], Holds(After(store[a].m, op)))
      invariant Grown(pool[a], old(pool[a].ring)) && OthersKept(pool, a)
      invariant forall j :: 0 <= j < k && j != a ==> SlotStands(pool[j], store[j])
      modifies {}
    {
      if pool[k] != null && k != a {
        StillStands(pool[k]);
      }
      k := k + 1;
    }
  }

  /** A further variable, for an array that none of the others holds. */
  lemma OneMoreStands(pool: seq<Arr?>, store: seq<Slot>, b: Arr?, slot: Slot)
    requires StandsFor(pool, store) && SlotStands(b, slot) && (b != null ==> b !in pool)
    ensures StandsFor(pool + [b], store + [slot])
    ensures Everything(pool + [b]) == Everything(pool) + Footprint(b)
  {
    hide SlotStands;
    hide Arr.Valid;
    hide TableOf;
    var more, extra := pool + [b], store + [slot];
    forall k | 0 <= k < |more| ensures SlotStands(more[k], extra[k]) {
    }
    forall o | o in Everything(pool) + Footprint(b) ensures o in Everything(more) {
      assert more[|pool|] == b;
      assert forall k :: 0 <= k < |pool| ==> more[k] == pool[k];
    }
  }

  /** An operation of a run on one of its arrays. */
  method DoStep(c: Cursor, pool: seq<Arr?>, a: nat, op: Op, ghost store: seq<Slot>) returns (next: seq<Arr?>, reply: Reply)
    requires c.Sound() && StandsFor(pool, store) && a < |pool| && pool[a] != null
    modifies c, Footprint(pool[a])
    ensures c.Sound() && StandsFor(next, StoreAfter(store, Do(a, op))) && reply == StepReply(store, Do(a, op))
    ensures forall o :: o in Everything(next) ==> o in old(Everything(pool)) || fresh(o)
  {
    hide After;
    hide ReplyOf;
    hide Arr.Valid;
    hide TableOf;
    hide Cursor.Sound;
    assert SlotStands(pool[a], store[a]);
    reply := OnSlot(c, pool, a, op, store);
    next := if op.Dispose? then pool[a := null] else pool;
  }

  /** One step of a run. */
  method Perform(c: Cursor, pool: seq<Arr?>, step: Step, ghost store: seq<Slot>) returns (next: seq<Arr?>, reply: Reply)
    requires c.Sound() && StandsFor(pool, store)
    modifies c, Everything(pool)
    ensures c.Sound() && StandsFor(next, StoreAfter(store, step)) && reply == StepReply(store, step)
    ensures forall o :: o in Everything(next) ==> o in old(Everything(pool)) || fresh(o)
  {
    hide After;
    hide ReplyOf;
    hide NullReply;
    hide Arr.Valid;
    hide TableOf;
    assert forall k :: 0 <= k < |pool| ==> SlotStands(pool[k], store[k]);
    next, reply := pool, Nothing;
    match step
    case Create =>
      next := Created(pool, store);
    case Copy(a) =>
      next := Copied(pool, a, store);
    case Do(a, op) =>
      if a < |pool| && pool[a] != null {
        next, reply := DoStep(c, pool, a, op, store);
      } else {
        reply := OnNull(c, op);
      }
  }

  lemma EmptyStands(b: Arr)
    requires b.Valid() && b.Contents() == []
    ensures SlotStands(b, Holds(map[]))
  {
  }

  method Created(pool: seq<Arr?>, ghost store: seq<Slot>) returns (next: seq<Arr?>)
    requires StandsFor(pool, store)
    ensures StandsFor(next, StoreAfter(store, Create))
    ensures forall o :: o in Everything(next) ==> o in Everything(pool) || fresh(o)
  {
    hide Arr.Valid;
    hide TableOf;
    var b := new Arr();
    EmptyStands(b);
    OneMoreStands(pool, store, b, Holds(map[]));
    next := pool + [b];
  }

  lemma CopyStands(a: Arr, b: Arr, m: Table)
    requires SlotStands(a, Holds(m)) && b.Valid() && b.Contents() == a.Contents()
    ensures SlotStands(b, Holds(m))
  {
    hide Arr.Valid;
  }

  method Copied(pool: seq<Arr?>, a: nat, ghost store: seq<Slot>) returns (next: seq<Arr?>)
    requires StandsFor(pool, store)
    ensures StandsFor(next, StoreAfter(store, Copy(a)))
    ensures forall o :: o in Everything(next) ==> o in Everything(pool) || fresh(o)
  {
    hide Arr.Valid;
    hide TableOf;
    assert a < |pool| ==> SlotStands(pool[a], store[a]);
    var source := if a < |pool| then pool[a] else null;
    var b := Cursor.Copy(source);
    if b != null {
      CopyStands(source, b, store[a].m);
    }
    OneMoreStands(pool, store, b, SlotOf(store, a));
    next := pool + [b];
  }

  lemma NoArrays()
    ensures StandsFor([], []) && Everything([]) == {}
  {
  }

  lemma RepliesStep(store: seq<Slot>, steps: seq<Step>, k: nat)
    requires k <= |steps|
    ensures k == |steps| ==> Replies(store, steps[k..]) == []
    ensures k < |steps| ==>
              Replies(store, steps[k..]) == [StepReply(store, steps[k])] + Replies(StoreAfter(store, steps[k]), steps[k + 1..])
  {
    assert k < |steps| ==> steps[k..][1..] == steps[k + 1..];
  }

  /** Every run, from no arrays at all, replies what plain maps reply. */
  method Run(steps: seq<Step>) returns (replies: seq<Reply>)
    ensures replies == Replies([], steps)
  {
    hide Cursor.Sound;
    hide StandsFor;
    hide Everything;
    hide StoreAfter;
    hide StepReply;
    hide Replies;
    var c := new Cursor();
    var pool: seq<Arr?> := [];
    ghost var store: seq<Slot> := [];
    NoArrays();
    replies := [];
    var k := 0;
    while k < |steps|
      invariant k <= |steps| && c.Sound() && StandsFor(pool, store)
      invariant fresh(c) && forall o :: o in Everything(pool) ==> fresh(o)
      invariant replies + Replies(store, steps[k..]) == Replies([], steps)
    {
      var reply;
      pool, reply := Perform(c, pool, steps[k], store);
      replies := replies + [reply];
      RepliesStep(store, steps, k);
      store := StoreAfter(store, steps[k]);
      k := k + 1;
    }
    RepliesStep(store, steps, k);
  }
}

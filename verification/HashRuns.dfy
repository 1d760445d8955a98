/** Runs of hashlib.c's operations on any number of tables: they reply what plain maps reply. */
module HashRuns {
  import opened HashTable

  // ----- plain maps -----

  datatype Option<T> = None | Some(value: T)

  /** What an item carries besides its key. */
  datatype Record = Record(data: string, timesFound: nat)

  type Records = map<string, Record>

  /** Insert gives the item that hash_insert returns its data, as the callers do. */
  datatype Op =
    | Search(key: string, create: bool)
    | Insert(key: string, noSearch: bool, data: string)
    | Remove(key: string)
    | Flush

  /** The item an operation returns, and the number of entries behind it. */
  datatype Reply = Reply(item: Option<Record>, entries: nat)

  function TimesFound(m: Records, key: string): nat {
    if key in m then m[key].timesFound + 1 else 0
  }

  function After(m: Records, op: Op): Records {
    match op
    case Search(key, create) =>
      if key in m || create then m[key := Record(if key in m then m[key].data else "", TimesFound(m, key))] else m
    case Insert(key, _, data) => m[key := Record(data, TimesFound(m, key))]
    case Remove(key) => m - {key}
    case Flush => map[]
  }

  function Find(m: Records, key: string): Option<Record> {
    if key in m then Some(m[key]) else None
  }

  function ReplyOf(m: Records, op: Op): Reply {
    var item := match op
      case Search(key, _) => Find(After(m, op), key)
      case Insert(key, _, _) => Find(After(m, op), key)
      case Remove(key) => Find(m, key)
      case Flush => None;
    Reply(item, |After(m, op)|)
  }

  /** A step of a run: tables are numbered in the order in which they come to be. */
  datatype Step = Create(buckets: nat) | Copy(t: nat) | Do(t: nat, op: Op)

  /** HASH_NOSRCH is used for absent keys only, and steps name tables that are there. */
  predicate Allowed(store: seq<Records>, step: Step) {
    match step
    case Create(_) => true
    case Copy(t) => t < |store|
    case Do(t, op) => t < |store| && (op.Insert? && op.noSearch ==> op.key !in store[t])
  }

  function StoreAfter(store: seq<Records>, step: Step): seq<Records>
    requires Allowed(store, step)
  {
    match step
    case Create(_) => store + [map[]]
    case Copy(t) => store + [store[t]]
    case Do(t, op) => store[t := After(store[t], op)]
  }

  function StepReply(store: seq<Records>, step: Step): Reply
    requires Allowed(store, step)
  {
    match step
    case Create(_) => Reply(None, 0)
    case Copy(t) => Reply(None, |store[t]|)
    case Do(t, op) => ReplyOf(store[t], op)
  }

  predicate AllAllowed(store: seq<Records>, steps: seq<Step>)
    decreases |steps|
  {
    steps == [] || (Allowed(store, steps[0]) && AllAllowed(StoreAfter(store, steps[0]), steps[1..]))
  }

  /** The replies of a run on plain maps. */
  function Replies(store: seq<Records>, steps: seq<Step>): (replies: seq<Reply>)
    requires AllAllowed(store, steps)
    decreases |steps|
  {
    if steps == [] then []
    else [StepReply(store, steps[0])] + Replies(StoreAfter(store, steps[0]), steps[1..])
  }

  // ----- what a table stands for -----

  ghost function RecordOf(item: Item): Record
    reads item
  {
    Record(item.data, item.timesFound)
  }

  ghost function RecordsOf(m: map<string, Item>): Records
    reads m.Values
  {
    map key | key in m :: RecordOf(m[key])
  }

  /** A well-formed table: every binding leads to an item of the table with that key. */
  lemma BindingsAreItems(t: Table)
    requires t.Valid()
    ensures forall key :: key in t.Contents() ==> t.Contents()[key] in t.repr && t.Contents()[key].key == key
  {
    hide HashFrom;
    hide BucketOf;
    hide MapOf;
    forall key | key in t.Contents() ensures t.Contents()[key] in t.repr && t.Contents()[key].key == key {
      MapIsLookup(t.chains, key);
      assert t.Good(BucketOf(HashFrom(key, 0), |t.chains|));
    }
  }

  lemma AllRecords(now: map<string, Item>)
    ensures RecordsOf(now).Keys == now.Keys && forall k :: k in now ==> RecordsOf(now)[k] == RecordOf(now[k])
  {
  }

  lemma EntriesAreCounted(t: Table)
    requires t.Valid()
    ensures t.nentries == |RecordsOf(t.Contents())|
  {
    assert |RecordsOf(t.Contents())| == |t.Contents()| by {
      assert RecordsOf(t.Contents()).Keys == t.Contents().Keys;
    }
  }

  // ----- one table -----

  ghost predicate Stands(t: Table, m: Records)
    reads t, t.bucketArray, t.repr
  {
    t.Valid() && (BindingsAreItems(t); RecordsOf(t.Contents()) == m)
  }

  /** All bindings but one stand for what they stood for. */
  ghost predicate OthersStand(now: map<string, Item>, item: Item, key: string, m: Records)
    reads now.Values
  {
    && key in now && now[key] == item && now.Keys == m.Keys + {key}
    && forall k :: k in now && k != key ==> now[k] != item && RecordOf(now[k]) == m[k]
  }

  lemma OneRecord(now: map<string, Item>, item: Item, key: string, m: Records)
    requires OthersStand(now, item, key, m)
    ensures RecordsOf(now) == m[key := RecordOf(item)]
  {
  }

  lemma SetRecord(t: Table, item: Item, key: string, m: Records)
    requires t.Valid() && OthersStand(t.Contents(), item, key, m)
    ensures Stands(t, m[key := RecordOf(item)]) && t.nentries == |m[key := RecordOf(item)]|
  {
    hide MapOf;
    hide RecordsOf;
    OneRecord(t.Contents(), item, key, m);
    EntriesAreCounted(t);
  }

  method SearchItem(t: Table, key: string, create: bool, ghost m: Records) returns (item: Item?)
    requires Stands(t, m)
    modifies t`nentries, t`chains, t`repr, t.bucketArray, t.repr`timesFound
    ensures fresh(t.repr - old(t.repr)) && t.Valid() && (item != null <==> key in m || create)
    ensures item == null ==> t.Contents() == old(t.Contents()) && RecordsOf(t.Contents()) == m
    ensures item != null ==>
              && OthersStand(t.Contents(), item, key, m) && item.timesFound == TimesFound(m, key)
              && item.data == if key in m then m[key].data else ""
  {
    hide Table.Valid;
    hide MapOf;
    AllRecords(t.Contents());
    BindingsAreItems(t);
    ghost var was := t.Contents();
    item := t.Search(key, create);
    ghost var now := t.Contents();
    forall k | k in now && k != key ensures now[k] != item && RecordOf(now[k]) == m[k] {
      assert k in was && now[k] == was[k] && was[k] in old(t.repr);
      assert was[k].key == k;
    }
  }

  method DoSearch(t: Table, key: string, create: bool, ghost m: Records) returns (reply: Reply)
    requires Stands(t, m)
    modifies t`nentries, t`chains, t`repr, t.bucketArray, t.repr`timesFound
    ensures Stands(t, After(m, Search(key, create))) && reply == ReplyOf(m, Search(key, create))
    ensures fresh(t.repr - old(t.repr))
  {
    hide Table.Valid;
    hide MapOf;
    hide RecordsOf;
    var item := SearchItem(t, key, create, m);
    EntriesAreCounted(t);
    if item != null {
      SetRecord(t, item, key, m);
    }
    reply := Reply(if item == null then None else Some(Record(item.data, item.timesFound)), t.nentries);
  }

  method InsertItem(t: Table, key: string, noSearch: bool, ghost m: Records) returns (item: Item)
    requires Stands(t, m) && (noSearch ==> key !in m)
    modifies t`nentries, t`chains, t`repr, t.bucketArray, t.repr`timesFound
    ensures t.Valid() && item in t.repr && item.timesFound == TimesFound(m, key) && OthersStand(t.Contents(), item, key, m)
    ensures fresh(t.repr - old(t.repr))
  {
    hide Table.Valid;
    hide MapOf;
    hide RecordsOf;
    AllRecords(t.Contents());
    BindingsAreItems(t);
    ghost var was := t.Contents();
    item := t.Insert(key, noSearch);
    ghost var now := t.Contents();
    forall k | k in now && k != key ensures now[k] != item && RecordOf(now[k]) == m[k] {
      assert k in was && now[k] == was[k] && was[k] in old(t.repr);
      assert was[k].key == k;
    }
  }

  method DoInsert(t: Table, key: string, noSearch: bool, data: string, ghost m: Records) returns (reply: Reply)
    requires Stands(t, m) && (noSearch ==> key !in m)
    modifies t`nentries, t`chains, t`repr, t.bucketArray, t.repr`timesFound, t.repr`data
    ensures Stands(t, After(m, Insert(key, noSearch, data))) && reply == ReplyOf(m, Insert(key, noSearch, data))
    ensures fresh(t.repr - old(t.repr))
  {
    hide Table.Valid;
    hide MapOf;
    hide RecordsOf;
    hide Stands;
    var item := InsertItem(t, key, noSearch, m);
    item.data := data;
    SetRecord(t, item, key, m);
    reply := Reply(Some(Record(item.data, item.timesFound)), t.nentries);
  }

  lemma FewerRecords(now: map<string, Item>, key: string, m: Records)
    requires now.Keys == m.Keys - {key} && forall k :: k in now ==> RecordOf(now[k]) == m[k]
    ensures RecordsOf(now) == m - {key}
  {
  }

  method DoRemove(t: Table, key: string, ghost m: Records) returns (reply: Reply)
    requires Stands(t, m)
    modifies t`nentries, t`chains, t.bucketArray, t.repr`next
    ensures Stands(t, After(m, Remove(key))) && reply == ReplyOf(m, Remove(key))
  {
    hide Table.Valid;
    hide MapOf;
    hide RecordsOf;
    AllRecords(t.Contents());
    BindingsAreItems(t);
    var item := t.Remove(key);
    FewerRecords(t.Contents(), key, m);
    EntriesAreCounted(t);
    reply := Reply(if item == null then None else Some(Record(item.data, item.timesFound)), t.nentries);
  }

  method DoFlush(t: Table, ghost m: Records) returns (reply: Reply)
    requires Stands(t, m)
    modifies t`nentries, t`chains, t.bucketArray
    ensures Stands(t, After(m, Flush)) && reply == ReplyOf(m, Flush)
  {
    hide Table.Valid;
    hide MapOf;
    t.Flush();
    EntriesAreCounted(t);
    reply := Reply(None, t.nentries);
  }

  // ----- copies -----

  lemma {:induction false} SameRecord(copies: seq<Item>, items: seq<Item>, key: string)
    requires SameItems(copies, items)
    ensures InChain(copies, key) == null <==> InChain(items, key) == null
    ensures InChain(items, key) != null ==> RecordOf(InChain(copies, key)) == RecordOf(InChain(items, key))
  {
    if items != [] {
      SameRecord(copies[1..], items[1..], key);
    }
  }

  lemma SameRecords(copies: seq<seq<Item>>, chains: seq<seq<Item>>)
    requires |copies| == |chains| && forall b :: 0 <= b < |chains| ==> SameItems(copies[b], chains[b])
    ensures RecordsOf(MapOf(copies)) == RecordsOf(MapOf(chains))
  {
    hide MapOf;
    hide RecordsOf;
    hide SameItems;
    hide InChain;
    hide HashFrom;
    hide BucketOf;
    AllRecords(MapOf(copies));
    AllRecords(MapOf(chains));
    forall key
      ensures key in MapOf(copies) <==> key in MapOf(chains)
      ensures key in MapOf(chains) ==> RecordOf(MapOf(copies)[key]) == RecordOf(MapOf(chains)[key])
    {
      MapIsLookup(copies, key);
      MapIsLookup(chains, key);
      if chains != [] {
        var b := BucketOf(HashFrom(key, 0), |chains|);
        SameRecord(copies[b], chains[b], key);
      }
    }
  }

  // ----- many tables -----

  /** Everything the tables are made of. */
  ghost function Everything(pool: seq<Table>): set<object>
    reads set k | 0 <= k < |pool| :: pool[k]
  {
    (set k | 0 <= k < |pool| :: pool[k]) + (set k | 0 <= k < |pool| :: pool[k].bucketArray)
    + set k, i | 0 <= k < |pool| && i in pool[k].repr :: i
  }

  /** Two tables have nothing in common. */
  ghost predicate Apart(s: Table, t: Table)
    reads s, t
  {
    s != t && s.bucketArray != t.bucketArray && s.repr !! t.repr
  }

  /** The tables are apart and each stands for its map. */
  ghost predicate AllStand(pool: seq<Table>, store: seq<Records>)
    reads set k | 0 <= k < |pool| :: pool[k]
    reads Everything(pool)
  {
    && |pool| == |store|
    && (forall k :: 0 <= k < |pool| ==> Stands(pool[k], store[k]))
    && forall j, k :: 0 <= j < |pool| && 0 <= k < |pool| && j != k ==> Apart(pool[j], pool[k])
  }

  method DoOn(t: Table, op: Op, ghost m: Records) returns (reply: Reply)
    requires Stands(t, m) && (op.Insert? && op.noSearch ==> op.key !in m)
    modifies t, t.bucketArray, t.repr
    ensures Stands(t, After(m, op)) && reply == ReplyOf(m, op)
    ensures t.bucketArray == old(t.bucketArray) && fresh(t.repr - old(t.repr))
  {
    hide Stands;
    hide After;
    hide ReplyOf;
    match op
    case Search(key, create) => reply := DoSearch(t, key, create, m);
    case Insert(key, noSearch, data) => reply := DoInsert(t, key, noSearch, data, m);
    case Remove(key) => reply := DoRemove(t, key, m);
    case Flush => reply := DoFlush(t, m);
  }

  /** A table no part of which has changed. */
  twostate lemma StillStands(t: Table)
    requires old(t.Valid()) && unchanged(t) && unchanged(t.bucketArray) && forall i :: i in t.repr ==> unchanged(i)
    ensures t.Valid() && RecordsOf(t.Contents()) == old(RecordsOf(t.Contents()))
  {
    hide MapOf;
    hide HashFrom;
    hide BucketOf;
    BindingsAreItems(t);
    assert forall b :: 0 <= b < |t.chains| ==> old(t.Good(b));
    assert forall b :: 0 <= b < |t.chains| ==> t.Good(b);
  }

  /** Nothing of the other tables has changed. */
  twostate predicate OthersKept(pool: seq<Table>, a: nat)
    reads set k | 0 <= k < |pool| :: pool[k]
    reads Everything(pool)
  {
    forall k :: 0 <= k < |pool| && k != a ==> Kept(pool[k])
  }

  twostate predicate Kept(t: Table)
    reads t, t.bucketArray, t.repr
  {
    unchanged(t) && unchanged(t.bucketArray) && forall i :: i in t.repr ==> unchanged(i)
  }

  /** An operation on one table changes nothing of the others. */
  method DoOne(pool: seq<Table>, a: nat, op: Op, ghost store: seq<Records>) returns (reply: Reply)
    requires AllStand(pool, store) && Allowed(store, Do(a, op))
    modifies pool[a], pool[a].bucketArray, pool[a].repr
    ensures Stands(pool[a], After(store[a], op)) && reply == ReplyOf(store[a], op)
    ensures pool[a].bucketArray == old(pool[a].bucketArray) && fresh(pool[a].repr - old(pool[a].repr))
    ensures OthersKept(pool, a)
  {
    hide Stands;
    hide After;
    hide ReplyOf;
    reply := DoOn(pool[a], op, store[a]);
    forall k | 0 <= k < |pool| && k != a ensures Kept(pool[k]) {
      assert old(Apart(pool[a], pool[k]));
    }
  }

  /** It leaves what they stand for. */
  method OnTable(pool: seq<Table>, a: nat, op: Op, ghost store: seq<Records>) returns (reply: Reply)
    requires AllStand(pool, store) && Allowed(store, Do(a, op))
    modifies pool[a], pool[a].bucketArray, pool[a].repr
    ensures AllStand(pool, StoreAfter(store, Do(a, op))) && reply == StepReply(store, Do(a, op))
    ensures forall o :: o in Everything(pool) ==> o in old(Everything(pool)) || fresh(o)
  {
    hide After;
    hide ReplyOf;
    hide Table.Valid;
    hide MapOf;
    hide RecordsOf;
    assert forall k :: 0 <= k < |pool| ==> Stands(pool[k], store[k]);
    reply := DoOne(pool, a, op, store);
    ghost var k := 0;
    while k < |pool|
      invariant k <= |pool| && Stands(pool[a], After(store[a], op)) && OthersKept(pool, a)
      invariant pool[a].bucketArray == old(pool[a].bucketArray) && fresh(pool[a].repr - old(pool[a].repr))
      invariant forall j :: 0 <= j < k && j != a ==> Stands(pool[j], store[j])
      modifies {}
    {
      if k != a {
        StillStands(pool[k]);
      }
      k := k + 1;
    }
    forall j, k | 0 <= j < |pool| && 0 <= k < |pool| && j != k ensures Apart(pool[j], pool[k]) {
      assert old(Apart(pool[j], pool[k]));
    }
  }

  /** A further table, apart from the others. */
  lemma OneMoreStands(pool: seq<Table>, store: seq<Records>, t: Table, m: Records)
    requires AllStand(pool, store) && Stands(t, m) && forall k :: 0 <= k < |pool| ==> Apart(pool[k], t)
    ensures AllStand(pool + [t], store + [m])
    ensures Everything(pool + [t]) == Everything(pool) + {t, t.bucketArray} + t.repr
  {
    hide Stands;
    var more := pool + [t];
    assert forall k :: 0 <= k < |pool| ==> more[k] == pool[k];
    assert more[|pool|] == t;
  }

  lemma EmptyStands(t: Table)
    requires t.Valid() && t.Contents() == map[]
    ensures Stands(t, map[])
  {
  }

  method Created(pool: seq<Table>, buckets: nat, ghost store: seq<Records>) returns (next: seq<Table>)
    requires AllStand(pool, store)
    ensures AllStand(next, store + [map[]])
    ensures forall o :: o in Everything(next) ==> o in Everything(pool) || fresh(o)
  {
    hide Table.Valid;
    hide MapOf;
    hide RecordsOf;
    var t := new Table(buckets);
    EmptyStands(t);
    OneMoreStands(pool, store, t, map[]);
    next := pool + [t];
  }

  method Copied(pool: seq<Table>, a: nat, ghost store: seq<Records>) returns (next: seq<Table>, entries: nat)
    requires AllStand(pool, store) && a < |pool|
    ensures AllStand(next, store + [store[a]]) && entries == |store[a]|
    ensures forall o :: o in Everything(next) ==> o in Everything(pool) || fresh(o)
  {
    hide Table.Valid;
    hide MapOf;
    hide RecordsOf;
    assert Stands(pool[a], store[a]);
    var t := CopyOf(pool[a], store[a]);
    OneMoreStands(pool, store, t, store[a]);
    next, entries := pool + [t], t.nentries;
  }

  method CopyOf(t: Table, ghost m: Records) returns (copy: Table)
    requires Stands(t, m)
    ensures Stands(copy, m) && copy.nentries == |m|
    ensures fresh(copy) && fresh(copy.bucketArray) && fresh(copy.repr)
  {
    hide Stands;
    hide SameItems;
    hide Table.Valid;
    hide MapOf;
    StandsIsValid(t, m);
    copy := t.Copy();
    CopyStands(copy, t, m);
  }

  lemma StandsIsValid(t: Table, m: Records)
    requires Stands(t, m)
    ensures t.Valid()
  {
  }

  lemma CopyStands(copy: Table, t: Table, m: Records)
    requires Stands(t, m) && copy.Valid() && |copy.chains| == |t.chains|
    requires forall b :: 0 <= b < |t.chains| ==> SameItems(copy.chains[b], t.chains[b])
    ensures Stands(copy, m) && copy.nentries == |m|
  {
    hide Table.Valid;
    hide MapOf;
    hide RecordsOf;
    SameRecords(copy.chains, t.chains);
    EntriesAreCounted(copy);
  }

  /** One step of a run. */
  method Perform(pool: seq<Table>, step: Step, ghost store: seq<Records>) returns (next: seq<Table>, reply: Reply)
    requires AllStand(pool, store) && Allowed(store, step)
    modifies Everything(pool)
    ensures AllStand(next, StoreAfter(store, step)) && reply == StepReply(store, step)
    ensures forall o :: o in Everything(next) ==> o in old(Everything(pool)) || fresh(o)
  {
    hide After;
    hide ReplyOf;
    hide Stands;
    match step
    case Create(buckets) =>
      next := Created(pool, buckets, store);
      reply := Reply(None, 0);
    case Copy(a) =>
      var entries;
      next, entries := Copied(pool, a, store);
      reply := Reply(None, entries);
    case Do(a, op) =>
      next := pool;
      reply := OnTable(pool, a, op, store);
  }

  /** Every run, from no tables at all, replies what plain maps reply. */
  method Run(steps: seq<Step>) returns (replies: seq<Reply>)
    requires AllAllowed([], steps)
    ensures replies == Replies([], steps)
  {
    hide AllStand;
    hide Everything;
    hide StoreAfter;
    hide StepReply;
    hide Allowed;
    hide AllAllowed;
    hide Replies;
    var pool: seq<Table> := [];
    ghost var store: seq<Records> := [];
    replies := [];
    var k := 0;
    NoTables();
    while k < |steps|
      invariant k <= |steps| && AllStand(pool, store) && AllAllowed(store, steps[k..])
      invariant forall o :: o in Everything(pool) ==> fresh(o)
      invariant replies + Replies(store, steps[k..]) == Replies([], steps)
    {
      NextStep(store, steps, k);
      var reply;
      pool, reply := Perform(pool, steps[k], store);
      replies := replies + [reply];
      store := StoreAfter(store, steps[k]);
      k := k + 1;
    }
    NextStep(store, steps, k);
  }

  lemma NoTables()
    ensures AllStand([], []) && Everything([]) == {}
  {
  }

  lemma NextStep(store: seq<Records>, steps: seq<Step>, k: nat)
    requires k <= |steps| && AllAllowed(store, steps[k..])
    ensures k == |steps| ==> Replies(store, steps[k..]) == []
    ensures k < |steps| ==> Allowed(store, steps[k]) && AllAllowed(StoreAfter(store, steps[k]), steps[k + 1..])
    ensures k < |steps| ==>
              Replies(store, steps[k..]) == [StepReply(store, steps[k])] + Replies(StoreAfter(store, steps[k]), steps[k + 1..])
  {
    assert k < |steps| ==> steps[k..][1..] == steps[k + 1..];
  }
}

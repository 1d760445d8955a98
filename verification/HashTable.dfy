/** hashlib.c: chained hash tables. */
module HashTable {
  import opened Int64

  const TWO_TO_32: nat := 0x1_0000_0000
  const DEFAULT_HASH_BUCKETS: nat := 64

  // ----- hashing -----

  /** A char as the unsigned int it is converted to: bytes from 128 on are sign-extended. */
  function CharBits(c: char): nat {
    var byte := c as int % 256;
    if byte < 128 then byte else byte + TWO_TO_32 - 256
  }

  function HashFrom(s: string, i: nat): nat
    decreases |s|
  {
    if s == [] then i else HashFrom(s[1..], Bitwise(Xor, 32, i * 16777619 % TWO_TO_32, CharBits(s[0])))
  }

  /** hash_string. */
  method HashString(s: string) returns (i: nat)
    ensures i == HashFrom(s, 0)
  {
    i := 0;
    var k := 0;
    while k < |s|
      invariant k <= |s| && HashFrom(s[k..], i) == HashFrom(s, 0)
    {
      i := i * 16777619 % TWO_TO_32;
      i := Bitwise(Xor, 32, i, CharBits(s[k]));
      assert s[k..][1..] == s[k + 1..];
      k := k + 1;
    }
    assert s[k..] == [];
  }

  /** One more character: the hash is multiplied by 16777619 modulo 2^32, and bit by bit xored with the character, whose top
      bit fills the bits above it. */
  lemma HashOfOneMore(s: string, c: char, k: nat)
    requires k < 32
    ensures HashFrom("", 0) == 0
    ensures Bit(HashFrom(s + [c], 0), k)
         <==> Bit(HashFrom(s, 0) * 16777619 % 0x1_0000_0000, k) != Bit(c as int % 256, if k < 8 then k else 7)
  {
    hide Bit;
    HashAppends(s, c, 0);
    var h := HashFrom(s, 0);
    BitOfBitwise(Xor, 32, h * 16777619 % TWO_TO_32, CharBits(c), k);
    BitOfChar(c, k);
  }

  lemma {:induction false} HashAppends(s: string, c: char, i: nat)
    ensures HashFrom(s + [c], i) == Bitwise(Xor, 32, HashFrom(s, i) * 16777619 % TWO_TO_32, CharBits(c))
    decreases |s|
  {
    hide Bitwise;
    hide CharBits;
    if s == "" {
      assert ("" + [c])[1..] == "" && ("" + [c])[0] == c;
    } else {
      assert (s + [c])[1..] == s[1..] + [c];
      HashAppends(s[1..], c, Bitwise(Xor, 32, i * 16777619 % TWO_TO_32, CharBits(s[0])));
    }
  }

  lemma BitOfChar(c: char, k: nat)
    requires k < 32
    ensures Bit(CharBits(c), k) == Bit(c as int % 256, if k < 8 then k else 7)
  {
    hide Bit;
    var byte := c as int % 256;
    var top := if byte < 128 then 0 else 0x100_0000 - 1;
    TopBit(byte);
    if k < 8 {
      assert CharBits(c) == byte + top * PowerOfTwo(8) by {
        assert PowerOfTwo(2) == 4 && PowerOfTwo(5) == 32 && PowerOfTwo(8) == 256;
      }
      BitOfSum(byte, top, 8, k);
    } else {
      BitAboveByte(CharBits(c), k - 8);
      assert CharBits(c) / 256 == top;
      OnesOrNone(24, k - 8);
    }
  }

  lemma TopBit(byte: nat)
    requires byte < 256
    ensures Bit(byte, 7) <==> byte >= 128
  {
    assert Bit(byte, 7) == Bit(byte / 2 / 2 / 2 / 2, 3);
    assert Bit(byte / 2 / 2 / 2 / 2, 3) == Bit(byte / 2 / 2 / 2 / 2 / 2 / 2 / 2, 0);
  }

  lemma BitAboveByte(x: nat, k: nat)
    ensures Bit(x, 8 + k) == Bit(x / 256, k)
  {
    assert Bit(x, 8 + k) == Bit(x / 2, 7 + k) == Bit(x / 4, 6 + k) == Bit(x / 8, 5 + k) == Bit(x / 16, 4 + k);
    assert Bit(x / 16, 4 + k) == Bit(x / 32, 3 + k) == Bit(x / 64, 2 + k) == Bit(x / 128, 1 + k) == Bit(x / 256, k);
  }

  lemma {:induction false} OnesOrNone(n: nat, k: nat)
    requires k < n
    ensures !Bit(0, k) && Bit(PowerOfTwo(n) - 1, k) && PowerOfTwo(24) == 0x100_0000
    decreases k
  {
    assert PowerOfTwo(8) == 256 && PowerOfTwo(16) == 65536;
    if k > 0 {
      OnesOrNone(n - 1, k - 1);
      assert (PowerOfTwo(n) - 1) / 2 == PowerOfTwo(n - 1) - 1;
    }
  }

  /** HASH_BUCKET, for a hash. */
  function BucketOf(h: nat, buckets: nat): (b: nat)
    requires buckets > 0
    ensures b < buckets
  {
    AndIsAtMost(32, h, buckets - 1);
    Bitwise(And, 32, h, buckets - 1)
  }

  lemma {:induction false} AndIsAtMost(bits: nat, a: nat, b: nat)
    ensures Bitwise(And, bits, a, b) <= b
  {
    if bits > 0 {
      AndIsAtMost(bits - 1, a / 2, b / 2);
    }
  }

  /** With a power of two for the number of buckets, masking is the remainder: every bucket can be reached. */
  lemma {:induction false} MaskIsRemainder(bits: nat, h: nat, k: nat)
    requires k <= bits
    ensures Bitwise(And, bits, h, PowerOfTwo(k) - 1) == h % PowerOfTwo(k)
  {
    if k == 0 {
      AndIsAtMost(bits, h, 0);
    } else {
      MaskIsRemainder(bits - 1, h / 2, k - 1);
      HalfMask(h, PowerOfTwo(k - 1));
    }
  }

  /** A bucket's number has the bits that the hash and the number of buckets less one have in common. */
  lemma BucketBits(h: nat, buckets: nat, k: nat)
    requires 0 < buckets <= 0x8000_0000
    ensures k < 32 ==> (Bit(BucketOf(h, buckets), k) <==> Bit(h, k) && Bit(buckets - 1, k))
    ensures forall n: nat :: n <= 31 && buckets == PowerOfTwo(n) ==> BucketOf(h, buckets) == h % buckets
  {
    hide Bit;
    hide Bitwise;
    if k < 32 {
      BitOfBitwise(And, 32, h, buckets - 1, k);
    }
    forall n: nat | n <= 31 && buckets == PowerOfTwo(n) ensures BucketOf(h, buckets) == h % buckets {
      MaskIsRemainder(32, h, n);
    }
  }

  lemma HalfMask(h: nat, p: nat)
    requires p > 0
    ensures (2 * p - 1) / 2 == p - 1 && (2 * p - 1) % 2 == 1
    ensures h % (2 * p) == 2 * (h / 2 % p) + h % 2
  {
    var q, r := h / 2 / p, h / 2 % p;
    assert h / 2 == p * q + r;
    assert h == 2 * (h / 2) + h % 2;
    assert h == (2 * p) * q + (2 * r + h % 2);
    assert h % (2 * p) == (2 * r + h % 2) by {
      var d, e := h / (2 * p), h % (2 * p);
      SameQuotient((2 * p), q, (2 * r + h % 2), d, e);
    }
  }

  lemma SameQuotient(m: int, q: int, r: int, d: int, e: int)
    requires m * q + r == m * d + e && 0 <= r < m && 0 <= e < m
    ensures r == e
  {
    if q > d {
      AtLeastOnce(m, q, d);
    } else if q < d {
      AtLeastOnce(m, d, q);
    }
  }

  lemma AtLeastOnce(m: int, a: int, b: int)
    requires m > 0 && a > b
    ensures m * a >= m * b + m
  {
    var k := a - b - 1;
    assert m * a == m * b + m + m * k;
    assert m * k >= 0;
  }

  // ----- chains -----

  /** An item of a table; its data is opaque here. */
  class Item {
    const key: string
    const khash: nat
    var data: string
    var timesFound: nat
    var next: Item?

    constructor (k: string, h: nat, after: Item?)
      ensures key == k && khash == h && next == after && data == "" && timesFound == 0
    {
      key, khash, data, timesFound, next := k, h, "", 0, after;
    }
  }

  /** The null-terminated chain of items that starts at head. */
  ghost predicate Chain(head: Item?, items: seq<Item>)
    reads items`next
  {
    && (items == [] ==> head == null)
    && (items != [] ==> head == items[0] && items[|items| - 1].next == null)
    && forall k {:trigger items[k].next} :: 0 <= k < |items| - 1 ==> items[k].next == items[k + 1]
  }

  /** The items carry their keys' hashes, which lead to bucket b, and no two have the same key. */
  ghost predicate Bucket(items: seq<Item>, b: nat, buckets: nat)
    requires buckets > 0
  {
    && (forall k :: 0 <= k < |items| ==> items[k].khash == HashFrom(items[k].key, 0) && BucketOf(items[k].khash, buckets) == b)
    && forall j, k :: 0 <= j < k < |items| ==> items[j].key != items[k].key
  }

  ghost predicate Framed(items: seq<Item>, repr: set<Item>) {
    forall k :: 0 <= k < |items| ==> items[k] in repr
  }

  ghost function Total(chains: seq<seq<Item>>): nat {
    if chains == [] then 0 else |chains[0]| + Total(chains[1..])
  }

  lemma {:induction false} TotalUpdate(chains: seq<seq<Item>>, b: nat, items: seq<Item>)
    requires b < |chains|
    ensures Total(chains[b := items]) == Total(chains) - |chains[b]| + |items|
  {
    if b > 0 {
      TotalUpdate(chains[1..], b - 1, items);
      assert chains[b := items][1..] == chains[1..][b - 1 := items];
    } else {
      assert chains[b := items][1..] == chains[1..];
    }
  }

  lemma {:induction false} NothingInTotal(chains: seq<seq<Item>>)
    requires Total(chains) == 0
    ensures forall b :: 0 <= b < |chains| ==> chains[b] == []
  {
    if chains != [] {
      NothingInTotal(chains[1..]);
    }
  }

  /** The item with a key, in a chain. */
  ghost function InChain(items: seq<Item>, key: string): (item: Item?)
    ensures item != null ==> item.key == key && item in items
  {
    if items == [] then null else if items[0].key == key then items[0] else InChain(items[1..], key)
  }

  lemma {:induction false} InChainAt(items: seq<Item>, key: string, k: nat)
    requires k <= |items| && (forall j :: 0 <= j < k ==> items[j].key != key)
    ensures InChain(items, key) == if k == |items| then null else if items[k].key == key then items[k] else InChain(items[k + 1..], key)
  {
    if k > 0 {
      InChainAt(items[1..], key, k - 1);
      assert k < |items| ==> items[1..][k..] == items[k + 1..];
    }
  }

  lemma {:induction false} InChainJoin(front: seq<Item>, back: seq<Item>, key: string)
    ensures InChain(front + back, key) == if InChain(front, key) != null then InChain(front, key) else InChain(back, key)
  {
    if front == [] {
      assert front + back == back;
    } else {
      InChainJoin(front[1..], back, key);
      assert (front + back)[1..] == front[1..] + back;
    }
  }

  /** Taking the only item with its key out of a chain. */
  lemma InChainWithout(items: seq<Item>, k: nat, key: string)
    requires k < |items| && forall i, j :: 0 <= i < j < |items| ==> items[i].key != items[j].key
    ensures InChain(items[..k] + items[k + 1..], key) == if key == items[k].key then null else InChain(items, key)
  {
    var front, back := items[..k], items[k + 1..];
    assert items == front + ([items[k]] + back);
    InChainJoin(front, back, key);
    InChainJoin(front, [items[k]] + back, key);
    assert ([items[k]] + back)[1..] == back;
    if key == items[k].key {
      InChainAt(front, key, k);
      InChainAt(back, key, |back|);
    }
  }

  /** The walk along a chain: item k, the first with the key, or the end. */
  method Find(head: Item?, hv: nat, key: string, ghost items: seq<Item>) returns (prev: Item?, list: Item?, ghost k: nat)
    requires Chain(head, items) && hv == HashFrom(key, 0) && forall j :: 0 <= j < |items| ==> items[j].khash == HashFrom(items[j].key, 0)
    ensures k <= |items| && list == (if k < |items| then items[k] else null) && (k < |items| ==> items[k].key == key)
    ensures prev == (if k > 0 then items[k - 1] else null) && forall j :: 0 <= j < k ==> items[j].key != key
  {
    prev, list, k := null, head, 0;
    while list != null
      invariant k <= |items| && list == (if k < |items| then items[k] else null)
      invariant prev == (if k > 0 then items[k - 1] else null) && forall j :: 0 <= j < k ==> items[j].key != key
      decreases |items| - k
    {
      if hv == list.khash && list.key == key {
        return;
      }
      prev := list;
      list := list.next;
      k := k + 1;
    }
  }

  /** The item with a key, in the bucket its hash leads to. */
  ghost function Lookup(chains: seq<seq<Item>>, key: string): (item: Item?)
    ensures item != null ==> item.key == key
  {
    if chains == [] then null else InChain(chains[BucketOf(HashFrom(key, 0), |chains|)], key)
  }

  ghost function KeysIn(chains: seq<seq<Item>>): set<string> {
    set b, k | 0 <= b < |chains| && 0 <= k < |chains[b]| :: chains[b][k].key
  }

  /** The finite map a table stands for. */
  ghost function MapOf(chains: seq<seq<Item>>): map<string, Item> {
    map key | key in KeysIn(chains) && Lookup(chains, key) != null :: Lookup(chains, key)
  }

  lemma MapIsLookup(chains: seq<seq<Item>>, key: string)
    ensures key in MapOf(chains) <==> Lookup(chains, key) != null
    ensures key in MapOf(chains) ==> MapOf(chains)[key] == Lookup(chains, key)
  {
    var item := Lookup(chains, key);
    if item != null {
      var b := BucketOf(HashFrom(key, 0), |chains|);
      var k :| 0 <= k < |chains[b]| && chains[b][k] == item;
      assert chains[b][k].key in KeysIn(chains);
    }
  }

  /** A new item in front of its bucket, under a key that was not there. */
  lemma MapWith(chains: seq<seq<Item>>, item: Item)
    requires |chains| > 0 && Lookup(chains, item.key) == null
    ensures var b := BucketOf(HashFrom(item.key, 0), |chains|);
            MapOf(chains[b := [item] + chains[b]]) == MapOf(chains)[item.key := item]
  {
    hide MapOf;
    hide InChain;
    var b := BucketOf(HashFrom(item.key, 0), |chains|);
    var after := chains[b := [item] + chains[b]];
    forall key ensures Lookup(after, key) == if key == item.key then item else Lookup(chains, key) {
      FrontItem(item, chains[b], key);
    }
    SameMaps(after, chains, item.key, item);
  }

  lemma FrontItem(item: Item, items: seq<Item>, key: string)
    ensures InChain([item] + items, key) == if key == item.key then item else InChain(items, key)
  {
    assert ([item] + items)[1..] == items;
  }

  lemma SameMaps(after: seq<seq<Item>>, before: seq<seq<Item>>, k: string, item: Item)
    requires forall key :: Lookup(after, key) == if key == k then item else Lookup(before, key)
    ensures MapOf(after) == MapOf(before)[k := item]
  {
    hide MapOf;
    hide Lookup;
    forall key ensures key in MapOf(after) <==> key in MapOf(before)[k := item] {
      MapIsLookup(after, key);
      MapIsLookup(before, key);
    }
    forall key | key in MapOf(after) ensures MapOf(after)[key] == MapOf(before)[k := item][key] {
      MapIsLookup(after, key);
      MapIsLookup(before, key);
    }
  }

  /** One item less. */
  lemma MapWithout(chains: seq<seq<Item>>, b: nat, k: nat)
    requires b < |chains| && k < |chains[b]| && Bucket(chains[b], b, |chains|)
    ensures MapOf(chains[b := chains[b][..k] + chains[b][k + 1..]]) == MapOf(chains) - {chains[b][k].key}
  {
    hide MapOf;
    hide InChain;
    hide BucketOf;
    hide HashFrom;
    var gone, after := chains[b][k].key, chains[b := chains[b][..k] + chains[b][k + 1..]];
    forall key ensures Lookup(after, key) == if key == gone then null else Lookup(chains, key) {
      InChainWithout(chains[b], k, key);
    }
    assert MapOf(after) == MapOf(chains) - {gone} by {
      hide Lookup;
      forall key ensures key in MapOf(after) <==> key in MapOf(chains) - {gone} {
        MapIsLookup(after, key);
        MapIsLookup(chains, key);
      }
      forall key | key in MapOf(after) ensures MapOf(after)[key] == (MapOf(chains) - {gone})[key] {
        MapIsLookup(after, key);
        MapIsLookup(chains, key);
      }
    }
  }

  class Table {
    var bucketArray: array<Item?>
    var nentries: nat
    ghost var chains: seq<seq<Item>>

    /** The table's frame: every item in it, and perhaps some that were. */
    ghost var repr: set<Item>

    /** Bucket b is a well-formed chain of items that belong there. */
    ghost predicate Good(b: nat)
      requires b < |chains| == bucketArray.Length
      reads this, bucketArray, repr`next
    {
      Framed(chains[b], repr) && Chain(bucketArray[b], chains[b]) && Bucket(chains[b], b, |chains|)
    }

    ghost predicate Valid()
      reads this, bucketArray, repr`next
    {
      && 0 < |chains| == bucketArray.Length && nentries == Total(chains) == |MapOf(chains)|
      && forall b :: 0 <= b < |chains| ==> Good(b)
    }

    /** The finite map the table stands for. */
    ghost function Contents(): map<string, Item>
      reads this
    {
      MapOf(chains)
    }

    /** hash_create. */
    constructor (buckets: nat)
      ensures Valid() && Contents() == map[] && nentries == 0 && fresh(bucketArray) && repr == {}
      ensures |chains| == if buckets == 0 then DEFAULT_HASH_BUCKETS else buckets
    {
      var n := if buckets == 0 then DEFAULT_HASH_BUCKETS else buckets;
      bucketArray := new Item?[n](_ => null);
      nentries := 0;
      chains := seq(n, _ => []);
      repr := {};
      new;
      EmptyTotal(chains);
      EmptyMap(chains);
    }

    /** Hooks an item for a new key in front of its bucket. */
    method PushFront(item: Item, b: nat)
      requires Valid() && item !in repr && item.khash == HashFrom(item.key, 0) && item.key !in Contents()
      requires b == BucketOf(item.khash, |chains|) && item.next == bucketArray[b]
      modifies this`nentries, this`chains, this`repr, bucketArray
      ensures Valid() && chains == old(chains)[b := [item] + old(chains)[b]] && repr == old(repr) + {item}
      ensures Contents() == old(Contents())[item.key := item] && nentries == old(nentries) + 1
    {
      hide Chain;
      hide Bucket;
      hide Framed;
      hide MapOf;
      hide InChain;
      hide HashFrom;
      hide BucketOf;
      hide Total;
      ghost var before, was := chains, repr;
      assert Lookup(chains, item.key) == null && forall j :: 0 <= j < |chains[b]| ==> chains[b][j].key != item.key by {
        MapIsLookup(chains, item.key);
        AbsentFromChain(chains[b], item.key);
      }
      MapIsLookup(chains, item.key);
      MapWith(chains, item);
      TotalUpdate(chains, b, [item] + chains[b]);
      assert Good(b);
      FrontIsGood(bucketArray[b], item, chains[b], b, |chains|);
      label Before:
      bucketArray[b] := item;
      chains := chains[b := [item] + chains[b]];
      repr := repr + {item};
      nentries := nentries + 1;
      forall c | 0 <= c < |chains| ensures Good(c) {
        assert old@Before(Good(c));
        FramedMore(before[c], was, item);
      }
    }

    /** hash_search. */
    method Search(key: string, create: bool) returns (item: Item?)
      requires Valid()
      modifies this`nentries, this`chains, this`repr, bucketArray, repr`timesFound
      ensures Valid()
      ensures key in old(Contents()) ==>
                && item == old(Contents())[key] && item.key == key && chains == old(chains)
                && item in repr && item.timesFound == old(item.timesFound) + 1
      ensures key !in old(Contents()) && !create ==> item == null && chains == old(chains)
      ensures key !in old(Contents()) && create ==>
                && item != null && fresh(item) && item.key == key && Contents() == old(Contents())[key := item]
                && nentries == old(nentries) + 1 && item.data == "" && item.timesFound == 0
      ensures fresh(repr - old(repr)) && forall i :: i in old(repr) && i != item ==> i.timesFound == old(i.timesFound)
    {
      hide Chain;
      hide Bucket;
      hide MapOf;
      hide Lookup;
      hide InChain;
      hide HashFrom;
      hide BucketOf;
      hide Total;
      hide Framed;
      item := null;
      if !create && nentries == 0 {
        EmptyTable();
        return;
      }
      var hv := HashString(key);
      var bucket := BucketOf(hv, bucketArray.Length);
      var prev, list, k := FindIn(hv, bucket, key);
      MapIsLookup(chains, key);
      if list != null {
        InFrame(bucket, k);
        list.timesFound := list.timesFound + 1;
        return list;
      }
      if create {
        item := new Item(key, hv, bucketArray[bucket]);
        PushFront(item, bucket);
      }
    }

    lemma InFrame(b: nat, k: nat)
      requires Valid() && b < |chains| && k < |chains[b]|
      ensures chains[b][k] in repr
    {
      assert Good(b);
    }

    /** The walk along the bucket of a key. */
    method FindIn(hv: nat, bucket: nat, key: string) returns (prev: Item?, list: Item?, ghost k: nat)
      requires Valid() && hv == HashFrom(key, 0) && bucket == BucketOf(hv, |chains|)
      ensures list == Lookup(chains, key) && k <= |chains[bucket]|
      ensures list != null ==> k < |chains[bucket]| && list == chains[bucket][k]
      ensures prev == if k > 0 then chains[bucket][k - 1] else null
    {
      hide HashFrom;
      hide BucketOf;
      hide Total;
      hide InChain;
      assert Good(bucket);
      prev, list, k := Find(bucketArray[bucket], hv, key, chains[bucket]);
      InChainAt(chains[bucket], key, k);
    }

    /** hash_insert: finds the key or hooks in a new item; HASH_NOSRCH skips the search, for keys known to be absent. */
    method Insert(key: string, noSearch: bool) returns (item: Item)
      requires Valid() && (noSearch ==> key !in Contents())
      modifies this`nentries, this`chains, this`repr, bucketArray, repr`timesFound
      ensures Valid() && item.key == key && Contents() == old(Contents())[key := item]
      ensures key in old(Contents()) ==>
                item == old(Contents())[key] && chains == old(chains) && item.timesFound == old(item.timesFound) + 1
      ensures key !in old(Contents()) ==> fresh(item) && nentries == old(nentries) + 1 && item.data == "" && item.timesFound == 0
      ensures item in repr && fresh(repr - old(repr)) && forall i :: i in old(repr) && i != item ==> i.timesFound == old(i.timesFound)
    {
      hide Chain;
      hide Bucket;
      hide MapOf;
      hide Lookup;
      hide InChain;
      hide HashFrom;
      hide BucketOf;
      hide Total;
      hide Framed;
      var found: Item? := null;
      if !noSearch {
        found := Search(key, false);
      }
      if found != null {
        return found;
      }
      var hv := HashString(key);
      var bucket := BucketOf(hv, bucketArray.Length);
      item := new Item(key, hv, bucketArray[bucket]);
      PushFront(item, bucket);
    }

    /** hash_remove: the item with the key, unhooked, or null. */
    method Remove(key: string) returns (item: Item?)
      requires Valid()
      modifies this`nentries, this`chains, bucketArray, repr`next
      ensures Valid() && Contents() == old(Contents()) - {key}
      ensures item == if key in old(Contents()) then old(Contents())[key] else null
      ensures nentries == old(nentries) - if key in old(Contents()) then 1 else 0
    {
      hide Chain;
      hide Bucket;
      hide MapOf;
      hide Lookup;
      hide InChain;
      hide HashFrom;
      hide BucketOf;
      hide Total;
      hide Framed;
      item := null;
      if nentries == 0 {
        EmptyTable();
        return;
      }
      var hv := HashString(key);
      var bucket := BucketOf(hv, bucketArray.Length);
      var prev, list, k := FindIn(hv, bucket, key);
      MapIsLookup(chains, key);
      if list != null {
        TakeOut(bucket, prev, list, k);
        item := list;
      }
    }

    /** hash_flush. */
    method Flush()
      requires Valid()
      modifies this`nentries, this`chains, bucketArray
      ensures Valid() && Contents() == map[] && nentries == 0
    {
      hide MapOf;
      hide Lookup;
      hide InChain;
      hide HashFrom;
      hide BucketOf;
      hide Total;
      if nentries == 0 {
        EmptyTable();
        return;
      }
      var i := 0;
      while i < bucketArray.Length
        invariant 0 <= i <= bucketArray.Length && forall b :: 0 <= b < i ==> bucketArray[b] == null
        modifies bucketArray
      {
        bucketArray[i] := null;
        i := i + 1;
      }
      nentries := 0;
      chains := seq(|chains|, _ => []);
      EmptyTotal(chains);
      EmptyMap(chains);
      assert forall b :: 0 <= b < |chains| ==> chains[b] == [] && bucketArray[b] == null;
    }

    /** Unhooks item k of a bucket. */
    method TakeOut(b: nat, prev: Item?, list: Item, ghost k: nat)
      requires Valid() && b < |chains| && k < |chains[b]| && list == chains[b][k] && prev == if k > 0 then chains[b][k - 1] else null
      modifies this`nentries, this`chains, bucketArray, repr`next
      ensures Valid() && Contents() == old(Contents()) - {list.key} && nentries == old(nentries) - 1
    {
      hide MapOf;
      hide InChain;
      hide HashFrom;
      hide BucketOf;
      hide Total;
      hide Bucket;
      hide Chain;
      hide Framed;
      ghost var items, fewer := chains[b], chains[b][..k] + chains[b][k + 1..];
      assert Good(b);
      MapWithout(chains, b, k);
      HeldKey(chains, b, k);
      TotalUpdate(chains, b, fewer);
      FewerIsGood(items, b, |chains|, k, repr);
      Unhook(b, prev, list, k);
      chains := chains[b := fewer];
      nentries := nentries - 1;
      forall c | 0 <= c < |chains| ensures Good(c) {
        assert old(Good(c));
      }
    }

    /** The relinking alone: the other buckets' chains are as they were. */
    method Unhook(b: nat, prev: Item?, list: Item, ghost k: nat)
      requires Valid() && b < |chains| && k < |chains[b]| && list == chains[b][k] && prev == if k > 0 then chains[b][k - 1] else null
      modifies bucketArray, repr`next
      ensures Chain(bucketArray[b], chains[b][..k] + chains[b][k + 1..])
      ensures forall c :: 0 <= c < |chains| && c != b ==> Chain(bucketArray[c], chains[c])
    {
      hide MapOf;
      hide InChain;
      hide HashFrom;
      hide BucketOf;
      hide Total;
      hide Bucket;
      hide Framed;
      assert Good(b);
      FewerIsGood(chains[b], b, |chains|, k, repr);
      OthersApart(b, prev);
      bucketArray[b] := Splice(bucketArray[b], prev, list, chains[b], k);
      forall c | 0 <= c < |chains| && c != b ensures Chain(bucketArray[c], chains[c]) {
        assert old(Good(c));
      }
    }

    /** An item of bucket b is in no other bucket. */
    lemma OthersApart(b: nat, item: Item?)
      requires Valid() && b < |chains| && (item != null ==> item in chains[b])
      ensures item != null ==> item in repr && forall c :: 0 <= c < |chains| && c != b ==> item !in chains[c]
    {
      hide HashFrom;
      hide BucketOf;
      hide Chain;
      if item != null {
        assert Good(b);
        forall c | 0 <= c < |chains| && c != b ensures item !in chains[c] {
          assert Good(c);
        }
      }
    }

    /** hash_copy: a table of its own with the same entries in the same order. */
    method Copy() returns (copy: Table)
      requires Valid()
      ensures fresh(copy) && fresh(copy.bucketArray) && fresh(copy.repr) && copy.Valid()
      ensures |copy.chains| == |chains| && forall b :: 0 <= b < |chains| ==> SameItems(copy.chains[b], chains[b])
      ensures copy.Contents().Keys == Contents().Keys && copy.nentries == nentries
    {
      hide MapOf;
      hide Lookup;
      hide InChain;
      hide HashFrom;
      hide BucketOf;
      hide Total;
      hide Chain;
      hide Bucket;
      hide Framed;
      hide SameItems;
      copy := new Table(bucketArray.Length);
      ghost var copies: seq<seq<Item>>, all: set<Item> := [], {};
      var i := 0;
      while i < bucketArray.Length
        invariant 0 <= i <= bucketArray.Length == copy.bucketArray.Length && |copies| == i && Valid()
        invariant fresh(copy) && fresh(copy.bucketArray) && fresh(all)
        invariant forall b :: 0 <= b < i ==> CopiedBucket(copies[b], chains[b], b, |chains|, copy.bucketArray[b])
        invariant forall b :: 0 <= b < i ==> Framed(copies[b], all)
        modifies copy.bucketArray
      {
        assert Good(i);
        var head, c := CopyBucketArray(bucketArray[i], chains[i]);
        ghost var before := all;
        copy.bucketArray[i] := head;
        all := all + set item | item in c;
        SameBucket(c, chains[i], i, |chains|);
        MoreFrames(copies, before, c);
        copies := copies + [c];
        i := i + 1;
      }
      copy.nentries := nentries;
      copy.chains := copies;
      copy.repr := all;
      CopiedSameKeys(copies, chains, copy.bucketArray);
      SameTotal(copies, chains);
      SameDomain(copies, chains);
    }

    lemma EmptyTable()
      requires Valid() && nentries == 0
      ensures Contents() == map[]
    {
      NothingInTotal(chains);
      EmptyMap(chains);
    }
  }

  // ----- copies -----

  ghost predicate SameKeys(copies: seq<Item>, items: seq<Item>) {
    |copies| == |items| && forall k :: 0 <= k < |items| ==> copies[k].key == items[k].key && copies[k].khash == items[k].khash
  }

  /** Two chains hold the same keys, hashes, data and counts in the same order. */
  ghost predicate SameItems(copies: seq<Item>, items: seq<Item>)
    reads copies`data, items`data, copies`timesFound, items`timesFound
  {
    SameKeys(copies, items)
    && forall k :: 0 <= k < |items| ==> copies[k].data == items[k].data && copies[k].timesFound == items[k].timesFound
  }

  /** A bucket of a copy, before it belongs to a table. */
  ghost predicate CopiedBucket(copies: seq<Item>, items: seq<Item>, b: nat, buckets: nat, head: Item?)
    requires buckets > 0
    reads copies, items
  {
    Chain(head, copies) && Bucket(copies, b, buckets) && SameItems(copies, items)
  }

  lemma SameBucket(copies: seq<Item>, items: seq<Item>, b: nat, buckets: nat)
    requires buckets > 0 && SameItems(copies, items) && Bucket(items, b, buckets)
    ensures Bucket(copies, b, buckets) && SameKeys(copies, items)
  {
    hide HashFrom;
    hide BucketOf;
  }

  lemma CopiedSameKeys(copies: seq<seq<Item>>, chains: seq<seq<Item>>, heads: array<Item?>)
    requires 0 < |copies| == |chains| == heads.Length
    requires forall b :: 0 <= b < |chains| ==> CopiedBucket(copies[b], chains[b], b, |chains|, heads[b])
    ensures forall b :: 0 <= b < |chains| ==> SameKeys(copies[b], chains[b]) && |copies[b]| == |chains[b]|
  {
    hide Chain;
    hide Bucket;
  }

  lemma MoreFrames(copies: seq<seq<Item>>, all: set<Item>, c: seq<Item>)
    requires forall b :: 0 <= b < |copies| ==> Framed(copies[b], all)
    ensures forall b :: 0 <= b < |copies| ==> Framed(copies[b], all + set item | item in c)
    ensures Framed(c, all + set item | item in c)
  {
  }

  lemma {:induction false} SameTotal(copies: seq<seq<Item>>, chains: seq<seq<Item>>)
    requires |copies| == |chains| && forall b :: 0 <= b < |chains| ==> |copies[b]| == |chains[b]|
    ensures Total(copies) == Total(chains)
  {
    if chains != [] {
      SameTotal(copies[1..], chains[1..]);
    }
  }

  lemma {:induction false} SameFind(copies: seq<Item>, items: seq<Item>, key: string)
    requires SameKeys(copies, items)
    ensures InChain(copies, key) == null <==> InChain(items, key) == null
  {
    if items != [] {
      SameFind(copies[1..], items[1..], key);
    }
  }

  lemma SameDomain(copies: seq<seq<Item>>, chains: seq<seq<Item>>)
    requires |copies| == |chains| && forall b :: 0 <= b < |chains| ==> SameKeys(copies[b], chains[b])
    ensures MapOf(copies).Keys == MapOf(chains).Keys && |MapOf(copies)| == |MapOf(chains)|
  {
    hide MapOf;
    hide InChain;
    hide SameKeys;
    hide HashFrom;
    hide BucketOf;
    forall key ensures key in MapOf(copies) <==> key in MapOf(chains) {
      MapIsLookup(copies, key);
      MapIsLookup(chains, key);
      if chains != [] {
        var b := BucketOf(HashFrom(key, 0), |chains|);
        SameFind(copies[b], chains[b], key);
      }
    }
  }

  /** Appends an item to a chain whose last item is n. */
  method Append(head: Item?, n: Item?, item: Item, ghost chain: seq<Item>) returns (front: Item)
    requires Chain(head, chain) && n == (if chain != [] then chain[|chain| - 1] else null) && item !in chain && item.next == null
    requires forall i, j :: 0 <= i < j < |chain| ==> chain[i] != chain[j]
    modifies chain`next
    ensures Chain(front, chain + [item]) && item.next == null
  {
    if n == null {
      front := item;
    } else {
      n.next := item;
      front := head;
    }
  }

  lemma SameMore(copies: seq<Item>, items: seq<Item>, k: nat, item: Item)
    requires k < |items| && SameItems(copies, items[..k])
    requires item.key == items[k].key && item.khash == items[k].khash && item.data == items[k].data && item.timesFound == items[k].timesFound
    ensures SameItems(copies + [item], items[..k + 1])
  {
  }

  /** copy_bucket_array: a new chain with the same items in the same order. */
  method CopyBucketArray(ba: Item?, ghost items: seq<Item>) returns (newBucket: Item?, ghost copies: seq<Item>)
    requires Chain(ba, items)
    ensures Chain(newBucket, copies) && SameItems(copies, items) && fresh(copies)
  {
    hide SameItems;
    newBucket, copies := null, [];
    var n: Item? := null;
    var e := ba;
    ghost var k := 0;
    NothingSame(items);
    while e != null
      invariant 0 <= k <= |items| && |copies| == k && e == (if k < |items| then items[k] else null) && fresh(copies)
      invariant n == (if k > 0 then copies[k - 1] else null) && Chain(newBucket, copies) && Chain(ba, items)
      invariant (forall i, j :: 0 <= i < j < |copies| ==> copies[i] != copies[j]) && SameItems(copies, items[..k])
      decreases |items| - k
    {
      var item := new Item(e.key, e.khash, null);
      item.data, item.timesFound := e.data, e.timesFound;
      SameMore(copies, items, k, item);
      newBucket := Append(newBucket, n, item, copies);
      n := item;
      copies := copies + [item];
      e := e.next;
      k := k + 1;
    }
    assert items[..k] == items;
  }

  lemma NothingSame(items: seq<Item>)
    ensures SameItems([], items[..0])
  {
  }

  /** The relinking of hash_remove. */
  method Splice(head: Item?, prev: Item?, list: Item, ghost items: seq<Item>, ghost k: nat) returns (front: Item?)
    requires Chain(head, items) && k < |items| && list == items[k] && prev == (if k > 0 then items[k - 1] else null)
    requires forall i, j :: 0 <= i < j < |items| ==> items[i] != items[j]
    modifies items`next
    ensures forall item :: item in items && item != prev ==> item.next == old(item.next)
    ensures Chain(front, items[..k] + items[k + 1..])
  {
    if prev != null {
      prev.next := list.next;
      front := head;
    } else {
      front := list.next;
    }
  }

  lemma FewerIsGood(items: seq<Item>, b: nat, buckets: nat, k: nat, repr: set<Item>)
    requires buckets > 0 && Bucket(items, b, buckets) && Framed(items, repr) && k < |items|
    ensures Bucket(items[..k] + items[k + 1..], b, buckets) && Framed(items[..k] + items[k + 1..], repr)
    ensures (forall i, j :: 0 <= i < j < |items| ==> items[i] != items[j]) && forall item :: item in items ==> item in repr
  {
    hide HashFrom;
    hide BucketOf;
  }

  /** An item in its bucket is the one its key finds. */
  lemma HeldKey(chains: seq<seq<Item>>, b: nat, k: nat)
    requires b < |chains| && k < |chains[b]| && Bucket(chains[b], b, |chains|)
    ensures chains[b][k].key in MapOf(chains)
    ensures |MapOf(chains) - {chains[b][k].key}| == |MapOf(chains)| - 1
  {
    hide MapOf;
    hide HashFrom;
    hide BucketOf;
    InChainAt(chains[b], chains[b][k].key, k);
    MapIsLookup(chains, chains[b][k].key);
  }

  lemma FrontIsGood(head: Item?, item: Item, items: seq<Item>, b: nat, buckets: nat)
    requires buckets > 0 && Chain(head, items) && Bucket(items, b, buckets) && item.next == head
    requires item.khash == HashFrom(item.key, 0) && BucketOf(item.khash, buckets) == b
    requires forall j :: 0 <= j < |items| ==> items[j].key != item.key
    ensures Chain(item, [item] + items) && Bucket([item] + items, b, buckets)
  {
    hide HashFrom;
    hide BucketOf;
  }

  lemma FramedMore(items: seq<Item>, repr: set<Item>, item: Item)
    requires Framed(items, repr)
    ensures Framed(items, repr + {item}) && Framed([item] + items, repr + {item})
  {
  }

  lemma {:induction false} AbsentFromChain(items: seq<Item>, key: string)
    requires InChain(items, key) == null
    ensures forall j :: 0 <= j < |items| ==> items[j].key != key
  {
    if items != [] {
      AbsentFromChain(items[1..], key);
    }
  }

  lemma {:induction false} EmptyTotal(chains: seq<seq<Item>>)
    requires forall b :: 0 <= b < |chains| ==> chains[b] == []
    ensures Total(chains) == 0
  {
    if chains != [] {
      EmptyTotal(chains[1..]);
    }
  }

  lemma EmptyMap(chains: seq<seq<Item>>)
    requires forall b :: 0 <= b < |chains| ==> chains[b] == []
    ensures MapOf(chains) == map[]
  {
    assert KeysIn(chains) == {};
  }
}

/** array.c: sparse arrays as circular doubly linked lists, and the roving cursor all arrays share. */
module SparseArray {
  import opened SparseEntries

  class Element {
    var ind: int
    var value: Value
    var next: Element?
    var prev: Element?
    ghost var owner: Arr?

    /** array_create_element, on behalf of an array. */
    constructor (i: int, v: Value, ghost a: Arr?)
      ensures ind == i && value == v && next == null && prev == null && owner == a
    {
      ind, value, next, prev, owner := i, v, null, null, a;
    }
  }

  ghost predicate Distinct(ring: seq<Element>) {
    forall j, k :: 0 <= j < k < |ring| ==> ring[j] != ring[k]
  }

  /** The elements of a ring point to each other in order, the last and the first too. */
  ghost predicate Linked(ring: seq<Element>)
    reads ring`next, ring`prev
  {
    && |ring| > 0 && ring[|ring| - 1].next == ring[0] && ring[0].prev == ring[|ring| - 1]
    && (forall k {:trigger ring[k].next} :: 0 <= k < |ring| - 1 ==> ring[k].next == ring[k + 1])
    && (forall k {:trigger ring[k].prev} :: 0 < k < |ring| ==> ring[k].prev == ring[k - 1])
  }

  /** A null-terminated chain. */
  ghost predicate Chained(chain: seq<Element>)
    reads chain`next
  {
    && |chain| > 0 && chain[|chain| - 1].next == null
    && forall k {:trigger chain[k].next} :: 0 <= k < |chain| - 1 ==> chain[k].next == chain[k + 1]
  }

  /** What the elements hold. */
  ghost function Entries(chain: seq<Element>): (es: seq<Entry>)
    reads chain`ind, chain`value
    ensures |es| == |chain|
  {
    if chain == [] then [] else [Entry(chain[0].ind, chain[0].value)] + Entries(chain[1..])
  }

  lemma {:induction false} EntriesAt(chain: seq<Element>)
    ensures forall k :: 0 <= k < |chain| ==> Entries(chain)[k] == Entry(chain[k].ind, chain[k].value)
  {
    if chain != [] {
      EntriesAt(chain[1..]);
    }
  }

  // ----- splicing -----

  /** ADD_BEFORE: added comes into the ring in front of ae, which is element p, or the head when p is the length. */
  method AddBefore(ae: Element, added: Element, ghost ring: seq<Element>, ghost p: nat, ghost before: Element)
    requires Distinct(ring) && Linked(ring) && 0 < p <= |ring| && added !in ring
    requires ae == (if p == |ring| then ring[0] else ring[p]) && before == ring[p - 1]
    modifies ae`prev, before`next, added`next, added`prev
    ensures Distinct(ring[..p] + [added] + ring[p..]) && Linked(ring[..p] + [added] + ring[p..])
  {
    ae.prev.next := added;
    added.prev := ae.prev;
    ae.prev := added;
    added.next := ae;
  }

  /** Unhooks element p of a ring, which is not the head. */
  method Unhook(ae: Element, ghost ring: seq<Element>, ghost p: nat, ghost before: Element, ghost after: Element)
    requires Distinct(ring) && Linked(ring) && 0 < p < |ring| && ae == ring[p]
    requires before == ring[p - 1] && after == if p + 1 < |ring| then ring[p + 1] else ring[0]
    modifies before`next, after`prev
    ensures Distinct(ring[..p] + ring[p + 1..]) && Linked(ring[..p] + ring[p + 1..])
    ensures ae.next == old(ae.next) == after && ae.prev == old(ae.prev) == before
  {
    ae.next.prev := ae.prev;
    ae.prev.next := ae.next;
  }

  /** Cuts the n elements behind the head out of a longer ring, and ends them with a null pointer. */
  method CutFront(head: Element, ae: Element, ghost ring: seq<Element>, ghost n: nat, ghost last: Element)
    requires Distinct(ring) && Linked(ring) && 0 < n && n + 1 < |ring|
    requires head == ring[0] && ae == ring[n + 1] && last == ring[n]
    modifies head`next, ae`prev, last`next
    ensures Distinct([head] + ring[n + 1..]) && Linked([head] + ring[n + 1..]) && Chained(ring[1..n + 1])
  {
    ae.prev.next := null;
    head.next := ae;
    ae.prev := head;
  }

  /** Ends the whole ring behind the head with a null pointer, and closes the head on itself. */
  method CutAll(head: Element, last: Element, ghost ring: seq<Element>)
    requires Distinct(ring) && Linked(ring) && |ring| > 1 && head == ring[0] && last == ring[|ring| - 1]
    modifies head`next, head`prev, last`next
    ensures Linked([head]) && Chained(ring[1..])
  {
    last.next := null;
    head.next, head.prev := head, head;
  }

  /** Adds delta to the index of every element from ae on, up to the head. */
  method Renumber(head: Element, start: Element, ghost ring: seq<Element>, ghost at: nat, delta: int)
    requires Distinct(ring) && Linked(ring) && head == ring[0] && 0 < at <= |ring|
             && start == if at == |ring| then head else ring[at]
    modifies ring`ind
    ensures forall k :: 0 <= k < at ==> ring[k].ind == old(ring[k].ind)
    ensures forall k :: at <= k < |ring| ==> ring[k].ind == old(ring[k].ind) + delta
  {
    var ae := start;
    ghost var p := at;
    while ae != head
      invariant at <= p <= |ring| && ae == if p == |ring| then head else ring[p]
      invariant forall k :: 0 <= k < at || p <= k < |ring| ==> ring[k].ind == old(ring[k].ind)
      invariant forall k :: at <= k < p ==> ring[k].ind == old(ring[k].ind) + delta
      decreases |ring| - p
    {
      ae.ind := ae.ind + delta;
      ae := ae.next;
      p := p + 1;
    }
  }

  // ----- entries of spliced rings -----

  lemma EntriesJoin(a: seq<Element>, b: seq<Element>)
    ensures Entries(a + b) == Entries(a) + Entries(b)
  {
    EntriesAt(a);
    EntriesAt(b);
    EntriesAt(a + b);
  }

  lemma EntriesOfOne(e: Element)
    ensures Entries([e]) == [Entry(e.ind, e.value)]
  {
  }

  /** more is es with a new entry, which is the last one or not. */
  predicate Inserted(es: seq<Entry>, more: seq<Entry>, i: int, v: Value, atEnd: bool) {
    && more == Put(es, i, v) && Increasing(more) && |more| == |es| + 1
    && MaxIndex(more) == if atEnd then i else MaxIndex(es)
  }

  lemma EntriesWith(ring: seq<Element>, added: Element, p: nat)
    requires 0 < p <= |ring| && Increasing(Entries(ring[1..])) && added.ind >= 0
    requires (p > 1 ==> ring[p - 1].ind < added.ind) && (p < |ring| ==> added.ind < ring[p].ind)
    ensures Inserted(Entries(ring[1..]), Entries((ring[..p] + [added] + ring[p..])[1..]), added.ind, added.value, p == |ring|)
  {
    hide Increasing;
    hide Inserted;
    hide Entries;
    assert ring[1..] == ring[1..p] + ring[p..];
    assert (ring[..p] + [added] + ring[p..])[1..] == ring[1..p] + ([added] + ring[p..]);
    EntriesAt(ring[1..p]);
    EntriesAt(ring[p..]);
    EntriesJoin(ring[1..p], ring[p..]);
    EntriesJoin(ring[1..p], [added] + ring[p..]);
    EntriesJoin([added], ring[p..]);
    EntriesOfOne(added);
    if p > 1 {
      assert ring[1..p][p - 2] == ring[p - 1];
    }
    if p < |ring| {
      assert ring[p..][0] == ring[p];
    }
    PutFits(Entries(ring[1..p]), Entries(ring[p..]), added.ind, added.value);
  }

  lemma AllBelow(es: seq<Entry>, q: nat, i: int)
    requires Increasing(es) && q <= |es| && (q > 0 ==> es[q - 1].ind < i)
    ensures forall k :: 0 <= k < q ==> es[k].ind < i
  {
  }

  lemma PutFits(front: seq<Entry>, back: seq<Entry>, i: int, v: Value)
    requires Increasing(front + back) && i >= 0
    requires (front != [] ==> front[|front| - 1].ind < i) && (back != [] ==> i < back[0].ind)
    ensures Inserted(front + back, front + ([Entry(i, v)] + back), i, v, back == [])
  {
    hide Put;
    hide Increasing;
    assert Put(front + back, i, v) == front + ([Entry(i, v)] + back) by {
      AllBelow(front + back, |front|, i);
      PutAt(front + back, i, v, |front|);
    }
    PutIncreases(front + back, i, v);
  }

  lemma PutOver(es: seq<Entry>, q: nat, v: Value)
    requires Increasing(es) && q < |es|
    ensures Put(es, es[q].ind, v) == es[q := Entry(es[q].ind, v)] && Increasing(Put(es, es[q].ind, v))
    ensures MaxIndex(Put(es, es[q].ind, v)) == MaxIndex(es)
  {
    PutAt(es, es[q].ind, v, q);
    PutIncreases(es, es[q].ind, v);
  }

  lemma OneChanged(es: seq<Entry>, after: seq<Entry>, q: nat, e: Entry)
    requires q < |es| == |after| && after[q] == e && forall k :: 0 <= k < |es| && k != q ==> after[k] == es[k]
    ensures after == es[q := e]
  {
  }

  /** fewer is es without the entry with index i, which was the last one or not. */
  predicate Removed(es: seq<Entry>, fewer: seq<Entry>, i: int, before: int, atEnd: bool) {
    && fewer == Without(es, i) && Increasing(fewer) && |fewer| == |es| - 1
    && MaxIndex(fewer) == if atEnd then before else MaxIndex(es)
  }

  lemma EntriesWithout(ring: seq<Element>, p: nat)
    requires 0 < p < |ring| && Increasing(Entries(ring[1..]))
    ensures Removed(Entries(ring[1..]), Entries((ring[..p] + ring[p + 1..])[1..]), ring[p].ind,
                    if p == 1 then -1 else ring[p - 1].ind, p + 1 == |ring|)
  {
    hide Increasing;
    hide Removed;
    hide Entries;
    assert ring[1..] == ring[1..p] + ([ring[p]] + ring[p + 1..]);
    assert (ring[..p] + ring[p + 1..])[1..] == ring[1..p] + ring[p + 1..];
    EntriesAt(ring[1..p]);
    EntriesJoin(ring[1..p], ring[p + 1..]);
    EntriesJoin(ring[1..p], [ring[p]] + ring[p + 1..]);
    EntriesJoin([ring[p]], ring[p + 1..]);
    EntriesOfOne(ring[p]);
    if p > 1 {
      assert ring[1..p][p - 2] == ring[p - 1];
    }
    WithoutFits(Entries(ring[1..p]), Entry(ring[p].ind, ring[p].value), Entries(ring[p + 1..]));
  }

  lemma OthersDiffer(es: seq<Entry>, q: nat)
    requires Increasing(es) && q < |es|
    ensures forall k :: 0 <= k < q ==> es[k].ind != es[q].ind
  {
  }

  lemma WithoutFits(front: seq<Entry>, e: Entry, back: seq<Entry>)
    requires Increasing(front + ([e] + back))
    ensures Removed(front + ([e] + back), front + back, e.ind, if front == [] then -1 else front[|front| - 1].ind, back == [])
  {
    hide Without;
    hide Increasing;
    var es := front + ([e] + back);
    assert es[|front|] == e;
    OthersDiffer(es, |front|);
    WithoutAt(es, |front|);
    WithoutIncreases(es, e.ind);
    assert es[..|front|] + es[|front| + 1..] == front + back;
  }

  lemma Moved(es: seq<Entry>, after: seq<Entry>, delta: int)
    requires |after| == |es| && forall k :: 0 <= k < |es| ==> after[k] == Entry(es[k].ind + delta, es[k].value)
    ensures after == Renumbered(es, delta)
  {
    RenumberedAt(es, delta);
  }

  /** The same, said of the entries behind the head. */
  method RenumberTail(head: Element, start: Element, ghost ring: seq<Element>, ghost at: nat, delta: int)
    requires Distinct(ring) && Linked(ring) && head == ring[0] && 0 < at <= |ring|
             && start == if at == |ring| then head else ring[at]
    modifies ring`ind
    ensures Entries(ring[at..]) == Renumbered(old(Entries(ring[at..])), delta)
    ensures Entries(ring[..at]) == old(Entries(ring[..at])) && head.ind == old(head.ind)
  {
    hide Renumbered;
    hide Distinct;
    hide Linked;
    hide Entries;
    ghost var before, tail := Entries(ring[..at]), Entries(ring[at..]);
    EntriesAt(ring[..at]);
    EntriesAt(ring[at..]);
    Renumber(head, start, ring, at, delta);
    EntriesAt(ring[..at]);
    EntriesAt(ring[at..]);
    Moved(tail, Entries(ring[at..]), delta);
    assert Entries(ring[..at]) == before;
  }

  // ----- arrays -----

  ghost predicate Owned(ring: seq<Element>, a: Arr)
    reads ring`owner
  {
    forall e :: e in ring ==> e.owner == a
  }

  lemma OwnedWith(ring: seq<Element>, added: Element, p: nat, a: Arr)
    requires Owned(ring, a) && added.owner == a && p <= |ring|
    ensures Owned(ring[..p] + [added] + ring[p..], a)
  {
  }

  class Arr {
    var maxIndex: int
    var numElements: int
    var head: Element
    ghost var ring: seq<Element>

    /** A circular list of elements of its own, behind a head with index -1. */
    ghost predicate Shaped()
      reads this, ring
    {
      && |ring| > 0 && ring[0] == head && head.ind == -1 && Distinct(ring) && Linked(ring)
      && Owned(ring, this)
    }

    ghost function Contents(): (es: seq<Entry>)
      reads this, ring`ind, ring`value
    {
      if ring == [] then [] else Entries(ring[1..])
    }

    /** Strictly increasing indices and exact bookkeeping. */
    ghost predicate Counted()
      reads this, ring`ind, ring`value
    {
      Increasing(Contents()) && numElements == |ring| - 1 && maxIndex == MaxIndex(Contents())
    }

    ghost predicate Valid()
      reads this, ring
    {
      Shaped() && Counted()
    }

    /** Element p of the ring, or the head when p is its length. */
    ghost function At(p: nat): Element
      requires |ring| > 0 && 0 < p <= |ring|
      reads this
    {
      if p == |ring| then ring[0] else ring[p]
    }

    /** array_create. */
    constructor ()
      ensures Valid() && Contents() == [] && fresh(ring)
    {
      maxIndex, numElements := -1, 0;
      var h := new Element(-1, Null, null);
      head := h;
      ring := [h];
      new;
      head.prev, head.next, head.owner := head, head, this;
    }

    lemma StepOn(p: nat)
      requires Shaped() && 0 < p < |ring|
      ensures ring[p].next == At(p + 1)
    {
    }

    lemma HeadIsEnd(p: nat)
      requires Shaped() && 0 < p <= |ring|
      ensures At(p) == head <==> p == |ring|
    {
    }

    /** From element at on, the first whose index is not below i, or the head. */
    method Seek(start: Element, ghost at: nat, i: int) returns (ae: Element, ghost p: nat)
      requires Shaped() && 0 < at <= |ring| && start == At(at) && forall k :: 0 < k < at ==> ring[k].ind < i
      ensures at <= p <= |ring| && ae == At(p) && (ae == head <==> p == |ring|)
      ensures (forall k :: 0 < k < p ==> ring[k].ind < i) && (p < |ring| ==> ring[p].ind >= i)
    {
      ae, p := start, at;
      HeadIsEnd(p);
      while ae != head && ae.ind < i
        invariant at <= p <= |ring| && ae == At(p) && (ae == head <==> p == |ring|)
        invariant forall k :: 0 < k < p ==> ring[k].ind < i
        decreases |ring| - p
      {
        StepOn(p);
        HeadIsEnd(p + 1);
        ae := ae.next;
        p := p + 1;
      }
    }

    /** From element at on, the one with index i, or the head. */
    method SeekEqual(start: Element, ghost at: nat, i: int) returns (ae: Element, ghost p: nat)
      requires Shaped() && 0 < at <= |ring| && start == At(at) && forall k :: 0 < k < at ==> ring[k].ind < i
      ensures at <= p <= |ring| && ae == At(p) && (ae == head <==> p == |ring|)
      ensures (forall k :: 0 < k < p ==> ring[k].ind != i) && (p < |ring| ==> ring[p].ind == i)
    {
      ae, p := start, at;
      HeadIsEnd(p);
      while ae != head && ae.ind != i
        invariant at <= p <= |ring| && ae == At(p) && (ae == head <==> p == |ring|)
        invariant forall k :: 0 < k < p ==> ring[k].ind != i
        decreases |ring| - p
      {
        StepOn(p);
        HeadIsEnd(p + 1);
        ae := ae.next;
        p := p + 1;
      }
    }

    /** Hooks a new element in before ae, whose neighbours its index fits between. */
    method HookIn(ae: Element, added: Element, atEnd: bool, ghost p: nat)
      requires Valid() && 0 < p <= |ring| && ae == At(p) && (atEnd <==> p == |ring|)
      requires added !in ring && added.ind >= 0 && added.owner == this
      requires (p > 1 ==> ring[p - 1].ind < added.ind) && (p < |ring| ==> added.ind < ring[p].ind)
      modifies this`ring, this`numElements, this`maxIndex, ring`next, ring`prev, added`next, added`prev
      ensures Valid() && ring == old(ring)[..p] + [added] + old(ring)[p..]
      ensures Contents() == Put(old(Contents()), added.ind, added.value)
    {
      hide Increasing;
      hide Put;
      hide Distinct;
      hide Linked;
      hide Entries;
      hide MaxIndex;
      ghost var wider := ring[..p] + [added] + ring[p..];
      ghost var more := Entries(wider[1..]);
      hide Owned;
      EntriesWith(ring, added, p);
      OwnedWith(ring, added, p, this);
      AddBefore(ae, added, ring, p, ring[p - 1]);
      assert Entries(wider[1..]) == more;
      if atEnd {
        maxIndex := added.ind;
      }
      numElements := numElements + 1;
      ring := wider;
      assert Contents() == more;
    }

    /** Gives element p a new value. */
    method Replace(ae: Element, v: Value, ghost p: nat)
      requires Valid() && 0 < p < |ring| && ae == ring[p]
      modifies ae`value
      ensures Valid() && Contents() == Put(old(Contents()), ae.ind, v)
    {
      hide Increasing;
      hide Put;
      hide Linked;
      hide MaxIndex;
      hide Entries;
      ghost var es := Contents();
      EntriesAt(ring[1..]);
      PutOver(es, p - 1, v);
      ae.value := v;
      EntriesAt(ring[1..]);
      OneChanged(es, Contents(), p - 1, Entry(ae.ind, v));
    }

    /** Takes element p out. */
    method Take(ae: Element, ghost p: nat)
      requires Valid() && 0 < p < |ring| && ae == ring[p]
      modifies this`ring, this`numElements, this`maxIndex, ring`next, ring`prev
      ensures Valid() && ring == old(ring)[..p] + old(ring)[p + 1..] && Contents() == Without(old(Contents()), ae.ind)
      ensures ae.next == old(ae.next) && ae.prev == old(ae.prev)
    {
      hide Increasing;
      hide Without;
      hide Distinct;
      hide Linked;
      hide Entries;
      ghost var fewer := ring[..p] + ring[p + 1..];
      ghost var es := Entries(fewer[1..]);
      hide Owned;
      EntriesWithout(ring, p);
      Ends(p);
      Unhook(ae, ring, p, ring[p - 1], At(p + 1));
      assert Entries(fewer[1..]) == es;
      numElements := numElements - 1;
      if ae.ind == maxIndex {
        maxIndex := ae.prev.ind;
      }
      ring := fewer;
      assert Contents() == es;
    }

    /** Only the last element has the greatest index. */
    lemma Ends(p: nat)
      requires Valid() && 0 < p < |ring|
      ensures ring[p].ind == maxIndex <==> p + 1 == |ring|
    {
      EntriesAt(ring[1..]);
      assert ring[p].ind == Contents()[p - 1].ind;
    }

    /** array_flush, for one array. */
    method Clear()
      requires Valid()
      modifies this`ring, this`numElements, this`maxIndex, head`next, head`prev
      ensures Valid() && Contents() == [] && ring == [head]
    {
      head.next, head.prev := head, head;
      maxIndex, numElements := -1, 0;
      ring := [head];
    }

    /** The element n places behind the first, or the head when there are not so many. */
    method Forward(n: int) returns (ae: Element, ghost p: nat)
      requires Shaped() && n > 0 && |ring| > 1
      ensures p == (if n < |ring| then n + 1 else |ring|) && ae == At(p) && (ae == head <==> p == |ring|)
    {
      StepOnFromHead();
      HeadIsEnd(1);
      ae, p := head.next, 1;
      var i := 0;
      while ae != head && i < n
        invariant 0 <= i <= n && p == i + 1 <= |ring| && ae == At(p) && (ae == head <==> p == |ring|)
        decreases n - i
      {
        StepOn(p);
        HeadIsEnd(p + 1);
        ae := ae.next;
        i := i + 1;
        p := p + 1;
      }
    }

    lemma StepOnFromHead()
      requires Shaped()
      ensures head.next == At(1) && head.prev == ring[|ring| - 1]
    {
    }

    /** Renumbers the elements that stay, from the first one on. */
    method Rebase(ae: Element, n: nat, ghost es: seq<Entry>)
      requires Shaped() && |ring| > 1 && ae == ring[1] && numElements == |ring| - 1 + n
      requires Increasing(es) && n < |es| && Entries(ring[1..]) == es[n..]
      modifies this`maxIndex, this`numElements, ring`ind
      ensures Valid() && Contents() == ShiftedLeft(es, n)
    {
      hide Increasing;
      hide Distinct;
      hide Linked;
      hide Entries;
      hide Owned;
      hide Renumbered;
      hide MaxIndex;
      StepOnFromHead();
      ShiftedLeftIncreases(es, n);
      RenumberTail(head, ae, ring, 1, -(n as int));
      LastEntry(ring);
      numElements := numElements - n;
      maxIndex := head.prev.ind;
    }

    /** The elements that stay, with the head, and those that go. */
    lemma RestOf(n: nat)
      requires Valid() && 0 < n && n + 1 < |ring|
      ensures var rest := [head] + ring[n + 1..];
              && rest[1..] == ring[n + 1..] && Owned(rest, this) && forall j :: 1 <= j <= n ==> ring[j] !in rest
      ensures Contents()[..n] == Entries(ring[1..n + 1]) && Contents()[n..] == Entries(ring[n + 1..])
    {
      hide Increasing;
      hide Linked;
      hide Entries;
      hide MaxIndex;
      assert Entries(ring[1..])[..n] == Entries(ring[1..n + 1]) && Entries(ring[1..])[n..] == Entries(ring[n + 1..]) by {
        assert ring[1..] == ring[1..n + 1] + ring[n + 1..];
        EntriesJoin(ring[1..n + 1], ring[n + 1..]);
      }
      assert ([head] + ring[n + 1..])[1..] == ring[n + 1..];
    }

    /** Slices the first n elements out of the list. */
    method SliceOff(ae: Element, n: nat)
      requires Valid() && 0 < n && n + 1 < |ring| && ae == ring[n + 1]
      modifies this`ring, ring`next, ring`prev
      ensures Shaped() && ring == [head] + old(ring)[n + 1..] && Entries(ring[1..]) == old(Contents())[n..]
      ensures Chained(old(ring)[1..n + 1]) && Entries(old(ring)[1..n + 1]) == old(Contents())[..n]
      ensures forall j :: 1 <= j <= n ==> old(ring)[j] !in ring
    {
      hide Increasing;
      hide Distinct;
      hide Linked;
      hide Entries;
      hide Chained;
      hide Owned;
      hide MaxIndex;
      RestOf(n);
      CutFront(head, ae, ring, n, ring[n]);
      ring := [head] + ring[n + 1..];
    }

    /** The end of array_shift when some elements stay. */
    method DropFront(ae: Element, n: nat)
      requires Valid() && 0 < n && n + 1 < |ring| && ae == ring[n + 1]
      modifies this`ring, this`numElements, this`maxIndex, ring
      ensures Valid() && ring == [head] + old(ring)[n + 1..] && Contents() == ShiftedLeft(old(Contents()), n)
      ensures Chained(old(ring)[1..n + 1]) && Entries(old(ring)[1..n + 1]) == old(Contents())[..n]
    {
      hide Increasing;
      hide Distinct;
      hide Linked;
      hide Entries;
      hide Chained;
      hide Owned;
      hide ShiftedLeft;
      hide MaxIndex;
      ghost var es := Contents();
      SliceOff(ae, n);
      Rebase(ae, n, es);
    }

    /** The last element, walking from the first one. */
    method LastFrom(start: Element) returns (ae: Element)
      requires Shaped() && |ring| > 1 && start == ring[1]
      ensures ae == ring[|ring| - 1]
    {
      ae := start;
      ghost var p := 1;
      StepOn(p);
      HeadIsEnd(p + 1);
      while ae.next != head
        invariant 0 < p < |ring| && ae == ring[p] && ae.next == At(p + 1) && (ae.next == head <==> p + 1 == |ring|)
        decreases |ring| - p
      {
        StepOn(p + 1);
        HeadIsEnd(p + 2);
        ae := ae.next;
        p := p + 1;
      }
    }

    /** The end of array_shift when no element stays. */
    method DropAll(ret: Element)
      requires Valid() && |ring| > 1 && ret == ring[1]
      modifies this`ring, this`numElements, this`maxIndex, ring`next, ring`prev
      ensures Valid() && Contents() == [] && ring == [head]
      ensures Chained(old(ring)[1..]) && Entries(old(ring)[1..]) == old(Contents())
    {
      hide Increasing;
      hide Distinct;
      hide Entries;
      var ae := LastFrom(ret);
      EmptyRing(head);
      CutAll(head, ae, ring);
      maxIndex, numElements := -1, 0;
      ring := [head];
    }

    /** What remains of an array when at least all of it is shifted. */
    lemma AllShifted(n: nat)
      requires Valid() && n + 1 >= |ring|
      ensures ShiftedLeft(Contents(), n) == [] && ring[1..] == ring[1..|ring|] && Contents()[..|ring| - 1] == Contents()
    {
      hide Increasing;
      hide Entries;
    }

    /** array_shift when no element stays. */
    method ShiftAll(dispose: bool) returns (ret: Element?)
      requires Valid() && |ring| > 1
      modifies this`ring, this`numElements, this`maxIndex, ring
      ensures Valid() && Contents() == [] && ring == [head] && head == old(head)
      ensures dispose ==> ret == null
      ensures !dispose ==> ret == old(ring)[1] && Chained(old(ring)[1..]) && Entries(old(ring)[1..]) == old(Contents())
    {
      hide Increasing;
      hide Distinct;
      hide Linked;
      hide Entries;
      hide Chained;
      hide MaxIndex;
      StepOnFromHead();
      ret := head.next;
      if dispose {
        Clear();
        return null;
      }
      DropAll(ret);
    }

    /** array_shift on an array that is not empty: the first n elements go, as a null-terminated chain unless they are
        disposed of, and the others move down by n. */
    method ShiftOut(n: int, dispose: bool) returns (ret: Element?)
      requires Valid() && numElements > 0 && n > 0
      modifies this`ring, this`numElements, this`maxIndex, ring
      ensures Valid() && Contents() == ShiftedLeft(old(Contents()), n) && (forall e :: e in ring ==> e in old(ring))
      ensures dispose ==> ret == null
      ensures !dispose ==>
                var m := if n < |old(ring)| then n else |old(ring)| - 1;
                ret == old(ring)[1] && Chained(old(ring)[1..m + 1]) && Entries(old(ring)[1..m + 1]) == old(Contents())[..m]
    {
      hide Increasing;
      hide Distinct;
      hide Linked;
      hide Entries;
      hide Chained;
      hide MaxIndex;
      hide Renumbered;
      hide ShiftedLeft;
      var ae, p := Forward(n);
      ret := head.next;
      StepOnFromHead();
      if ae == head {
        AllShifted(n);
        ret := ShiftAll(dispose);
      } else {
        DropFront(ae, n);
        if dispose {
          ret := null;
        }
      }
    }

    /** Moves every element from the first one on up by n, in an array whose links are in order. */
    method MoveUp(ae: Element, n: nat, ghost at: nat, ghost es: seq<Entry>)
      requires Shaped() && 0 < at < |ring| && ae == ring[at] && numElements == |ring| - 1
      requires Entries(ring[at..]) == es && Increasing(Entries(ring[1..at]) + Renumbered(es, n))
      modifies this`maxIndex, ring`ind
      ensures Valid() && Contents() == old(Entries(ring[1..at])) + Renumbered(es, n)
    {
      hide Increasing;
      hide Distinct;
      hide Linked;
      hide Entries;
      hide Owned;
      hide Renumbered;
      hide MaxIndex;
      ghost var whole := Entries(ring[1..at]) + Renumbered(es, n);
      StepOnFromHead();
      FrontOf(ring, at);
      RenumberTail(head, ae, ring, at, n);
      FrontOf(ring, at);
      assert Entries(ring[1..]) == whole;
      LastEntry(ring);
      maxIndex := head.prev.ind;
      assert Contents() == whole;
      assert Linked(ring);
      assert Owned(ring, this);
      assert Shaped();
      assert Increasing(Contents());
      assert maxIndex == MaxIndex(Contents());
      assert Counted();
    }

    /** Puts a new element behind the head, without looking at indices. */
    method HookFirst(ae: Element, added: Element)
      requires Shaped() && ae == At(1) && added !in ring && added.owner == this
      modifies this`ring, this`numElements, ring`next, ring`prev, added`next, added`prev
      ensures Shaped() && ring == [head, added] + old(ring)[1..] && numElements == old(numElements) + 1
    {
      hide Distinct;
      hide Linked;
      hide Owned;
      ghost var wider := ring[..1] + [added] + ring[1..];
      OwnedWith(ring, added, 1, this);
      AddBefore(ae, added, ring, 1, ring[0]);
      numElements := numElements + 1;
      ring := wider;
    }

    /** array_rshift on an array that is not empty, with n > 0 and no new value. */
    method ShiftUp(n: nat)
      requires Valid() && numElements > 0 && n > 0
      modifies this`maxIndex, ring`ind
      ensures Valid() && Contents() == ShiftedRight(old(Contents()), n, Null)
    {
      hide Increasing;
      hide Distinct;
      hide Linked;
      hide Entries;
      hide Owned;
      hide Renumbered;
      ghost var es := Contents();
      ShiftedRightIncreases(es, n, Null);
      StepOnFromHead();
      MoveUp(head.next, n, 1, es);
    }

    /** array_rshift with a new value, n > 0. */
    method ShiftIn(n: nat, s: Value)
      requires Valid() && n > 0 && s != Null
      modifies this, ring
      ensures Valid() && Contents() == ShiftedRight(old(Contents()), n, s)
      ensures forall e :: e in ring ==> e in old(ring) || fresh(e)
    {
      hide Increasing;
      hide Distinct;
      hide Linked;
      hide Entries;
      hide Owned;
      hide Renumbered;
      ghost var before, es := ring, Contents();
      ShiftedRightIncreases(es, n, s);
      StepOnFromHead();
      var ae := head.next;
      var added := new Element(0, s, this);
      HookFirst(ae, added);
      ghost var first := [Entry(added.ind, added.value)];
      assert Entries(ring[1..2]) == first && Entries(ring[2..]) == Entries(before[1..])
             && Entries(ring[1..]) == first + Entries(before[1..]) by {
        assert ring[2..] == before[1..] && ring[1..] == [added] + before[1..] && ring[1..2] == [added];
        EntriesOfOne(added);
        EntriesJoin([added], before[1..]);
      }
      if numElements == 1 {
        maxIndex := 0;
        RightOfNothing(n, s);
        return;
      }
      MoveUp(ae, n, 2, es);
    }
  }

  lemma FrontOf(ring: seq<Element>, at: nat)
    requires 0 < at <= |ring|
    ensures Entries(ring[..at])[1..] == Entries(ring[1..at])
    ensures Entries(ring[1..]) == Entries(ring[1..at]) + Entries(ring[at..])
  {
    assert ring[1..] == ring[1..at] + ring[at..];
    EntriesJoin(ring[1..at], ring[at..]);
    assert ring[..at] == [ring[0]] + ring[1..at];
    EntriesJoin([ring[0]], ring[1..at]);
  }

  lemma RightOfNothing(n: nat, s: Value)
    requires s != Null
    ensures ShiftedRight([], n, s) == [Entry(0, s)] && MaxIndex([Entry(0, s)]) == 0
  {
  }

  lemma LastEntry(ring: seq<Element>)
    requires |ring| > 1
    ensures MaxIndex(Entries(ring[1..])) == ring[|ring| - 1].ind
  {
    EntriesAt(ring[1..]);
  }

  lemma EmptyRing(h: Element)
    ensures Distinct([h]) && Entries([h][1..]) == [] && Increasing([])
  {
  }

  // ----- the cursor all arrays share -----

  ghost function Footprint(a: Arr?): set<object>
    reads a
  {
    if a == null then {} else {a} + set e: Element | e in a.ring
  }

  /** Nothing but new elements has come into the ring. */
  twostate predicate Grown(a: Arr, before: seq<Element>)
    reads a
  {
    forall e :: e in a.ring ==> e in before || fresh(e)
  }

  /** An array none of whose parts has changed is as it was. */
  twostate lemma StillValid(b: Arr)
    requires old(b.Valid()) && b.ring == old(b.ring) && b.head == old(b.head)
    requires b.maxIndex == old(b.maxIndex) && b.numElements == old(b.numElements)
    requires forall e :: e in b.ring ==> e.next == old(e.next) && e.prev == old(e.prev) && e.owner == old(e.owner)
    requires forall e :: e in b.ring ==> e.ind == old(e.ind) && e.value == old(e.value)
    ensures b.Valid() && b.Contents() == old(b.Contents())
  {
    assert Linked(b.ring);
    assert Owned(b.ring, b);
    assert Entries(b.ring[1..]) == old(Entries(b.ring[1..]));
  }

  class Cursor {
    var lastArray: Arr?
    var lastRef: Element?

    constructor ()
      ensures Sound() && lastArray == null
    {
      lastArray, lastRef := null, null;
    }

    /** The cursor is null, or a live element of its array, which is well formed. */
    ghost predicate Sound()
      reads this, Footprint(lastArray)
    {
      && (lastArray == null <==> lastRef == null)
      && (lastArray != null ==> lastArray.Valid() && lastRef in lastArray.ring[1..])
    }

    /** LASTREF_START: where to start looking for index i; every element before it is too small. */
    method Start(a: Arr, i: int) returns (ae: Element, ghost p: nat)
      requires Sound() && a.Valid()
      ensures 0 < p <= |a.ring| && ae == a.At(p) && forall k :: 0 < k < p ==> a.ring[k].ind < i
    {
      hide Linked;
      hide Entries;
      hide Owned;
      if lastArray != null && a == lastArray && i >= lastRef.ind {
        ae := lastRef;
        p := PlaceOf(a, lastRef);
      } else {
        a.StepOnFromHead();
        ae := a.head.next;
        p := 1;
      }
    }

    /** INVALIDATE_LASTREF. */
    method Invalidate(a: Arr)
      modifies this
      ensures lastArray == (if old(lastArray) == a then null else old(lastArray))
      ensures lastRef == if old(lastArray) == a then null else old(lastRef)
    {
      if lastArray == a {
        lastArray, lastRef := null, null;
      }
    }

    /** array_insert: it never fails on an array; the last return (-1) of the source is not reached. */
    method Insert(a: Arr?, i: int, v: Value) returns (r: int)
      requires Sound() && (a != null ==> a.Valid()) && i >= 0
      modifies this, Footprint(a)
      ensures Sound() && r == if a == null then -1 else 0
      ensures a != null ==> a.Valid() && a.Contents() == Put(old(a.Contents()), i, v) && Grown(a, old(a.ring))
    {
      hide Put;
      hide Increasing;
      hide Distinct;
      hide Linked;
      hide Entries;
      hide Owned;
      if a == null {
        return -1;
      }
      var e;
      if i > a.maxIndex {
        e := Append(a, i, v);
      } else {
        var start, at := Start(a, i);
        e := Place(a, start, at, i, v);
      }
      lastArray, lastRef := a, e;
      r := 0;
    }

    /** The fast path of array_insert. */
    static method Append(a: Arr, i: int, v: Value) returns (added: Element)
      requires a.Valid() && i > a.maxIndex && i >= 0
      modifies Footprint(a)
      ensures a.Valid() && a.Contents() == Put(old(a.Contents()), i, v) && Grown(a, old(a.ring)) && added in a.ring[1..]
    {
      hide Put;
      hide Increasing;
      hide Distinct;
      hide Linked;
      hide Entries;
      hide Owned;
      Greatest(a);
      added := new Element(i, v, a);
      a.HeadIsEnd(|a.ring|);
      a.HookIn(a.head, added, true, |a.ring|);
      assert a.ring[|a.ring| - 1] == added;
    }

    /** The search of array_insert, from start on. */
    static method Place(a: Arr, start: Element, ghost at: nat, i: int, v: Value) returns (e: Element)
      requires a.Valid() && 0 <= i <= a.maxIndex && 0 < at <= |a.ring| && start == a.At(at)
      requires forall k :: 0 < k < at ==> a.ring[k].ind < i
      modifies Footprint(a)
      ensures a.Valid() && a.Contents() == Put(old(a.Contents()), i, v) && Grown(a, old(a.ring)) && e in a.ring[1..]
    {
      hide Put;
      hide Increasing;
      hide Distinct;
      hide Linked;
      hide Entries;
      hide Owned;
      Greatest(a);
      ghost var p;
      e, p := a.Seek(start, at, i);
      if e.ind == i && e != a.head {
        a.Replace(e, v, p);
      } else if e != a.head {
        var added := new Element(i, v, a);
        a.HookIn(e, added, false, p);
        assert a.ring[p] == added;
        e := added;
      } else {
        assert false;
      }
    }

    /** array_remove: the element with index i, or null. */
    method Remove(a: Arr?, i: int) returns (e: Element?)
      requires Sound() && (a != null ==> a.Valid())
      modifies this, Footprint(a)
      ensures Sound()
      ensures a == null ==> e == null
      ensures a != null ==> a.Valid() && a.Contents() == Without(old(a.Contents()), i) && Grown(a, old(a.ring))
      ensures a != null ==> (e == null <==> i !in ToMap(old(a.Contents())))
      ensures a != null && e != null ==> e in old(a.ring) && e !in a.ring && e.ind == i && ToMap(old(a.Contents()))[i] == e.value
    {
      hide Put;
      hide Without;
      hide Increasing;
      hide Distinct;
      hide Linked;
      hide Entries;
      hide Owned;
      hide ToMap;
      if a == null || a.numElements == 0 {
        if a != null {
          NothingHeld(a, i);
        }
        return null;
      }
      var start, at := Start(a, i);
      var ae, p := a.SeekEqual(start, at, i);
      if ae == a.head {
        NotHeld(a, i);
        return null;
      }
      Held(a, p);
      Unlink(a, ae, p);
      e := ae;
    }

    /** Takes element p out of an array and moves the cursor next to it. */
    method Unlink(a: Arr, ae: Element, ghost p: nat)
      requires Sound() && a.Valid() && 0 < p < |a.ring| && ae == a.ring[p]
      modifies this, Footprint(a)
      ensures Sound() && a.Valid() && a.Contents() == Without(old(a.Contents()), ae.ind) && Grown(a, old(a.ring))
      ensures ae !in a.ring && ae.ind == old(ae.ind) && ae.value == old(ae.value)
    {
      hide Without;
      hide Increasing;
      hide Distinct;
      hide Linked;
      hide Entries;
      hide Owned;
      hide MaxIndex;
      Neighbours(a, p);
      TakenApart(a.ring, p);
      OtherApart(a, lastArray);
      a.Take(ae, p);
      if ae.next != a.head {
        lastArray, lastRef := a, ae.next;
      } else if ae.prev != a.head {
        lastArray, lastRef := a, ae.prev;
      } else {
        if lastArray != null && lastArray != a {
          StillValid(lastArray);
        }
        Invalidate(a);
      }
    }

    /** array_reference: the value of a[i], null when there is none. */
    method Reference(a: Arr?, i: int) returns (v: Value)
      requires Sound() && (a != null ==> a.Valid())
      modifies this
      ensures Sound()
      ensures v == if a != null && i in ToMap(a.Contents()) then ToMap(a.Contents())[i] else Null
    {
      hide Put;
      hide Without;
      hide Increasing;
      hide Distinct;
      hide Linked;
      hide Entries;
      hide Owned;
      hide ToMap;
      if a == null || a.numElements == 0 {
        if a != null {
          NothingHeld(a, i);
        }
        return Null;
      }
      if i > a.maxIndex {
        CountAndMax(a.Contents());
        return Null;
      }
      var start, at := Start(a, i);
      var ae, p := a.SeekEqual(start, at, i);
      if ae != a.head {
        Held(a, p);
        lastArray, lastRef := a, ae;
        return ae.value;
      }
      NotHeld(a, i);
      lastArray, lastRef := null, null;
      v := Null;
    }

    /** array_flush. */
    method Flush(a: Arr?)
      requires Sound() && (a != null ==> a.Valid())
      modifies this, Footprint(a)
      ensures Sound() && (a != null ==> lastArray != a && a.Valid() && a.Contents() == [] && Grown(a, old(a.ring)))
    {
      hide Put;
      hide Without;
      hide Increasing;
      hide Distinct;
      hide Entries;
      hide Owned;
      hide ToMap;
      if a == null {
        return;
      }
      OtherApart(a, lastArray);
      a.Clear();
      if lastArray != null && lastArray != a {
        StillValid(lastArray);
      }
      Invalidate(a);
    }

    /** array_dispose: afterwards the cursor does not point into the array. */
    method Dispose(a: Arr?)
      requires Sound() && (a != null ==> a.Valid())
      modifies this, Footprint(a)
      ensures Sound() && (a != null ==> lastArray != a && a.Valid() && a.Contents() == [] && Grown(a, old(a.ring)))
    {
      if a == null {
        return;
      }
      Flush(a);
    }

    /** array_shift: n or fewer elements go, as a chain unless they are disposed of. */
    method Shift(a: Arr?, n: int, dispose: bool) returns (ret: Element?)
      requires Sound() && (a != null ==> a.Valid())
      modifies this, Footprint(a)
      ensures Sound()
      ensures a != null ==> a.Valid() && Grown(a, old(a.ring))
      ensures a != null ==> a.Contents() == if n <= 0 then old(a.Contents()) else ShiftedLeft(old(a.Contents()), n)
      ensures ret == null <==> a == null || old(a.Contents()) == [] || n <= 0 || dispose
      ensures ret != null ==>
                var es := old(a.Contents());
                var m := if n < |es| then n else |es|;
                Chained(old(a.ring)[1..m + 1]) && ret == old(a.ring)[1] && Entries(old(a.ring)[1..m + 1]) == es[..m]
    {
      hide ShiftedLeft;
      hide Chained;
      hide MaxIndex;
      hide Put;
      hide Without;
      hide Increasing;
      hide Distinct;
      hide Linked;
      hide Entries;
      hide Owned;
      hide ToMap;
      if a == null || a.numElements == 0 || n <= 0 {
        if a != null && a.numElements == 0 {
          NothingShifts(n);
        }
        return null;
      }
      OtherApart(a, lastArray);
      Invalidate(a);
      ret := a.ShiftOut(n, dispose);
      if lastArray != null && lastArray != a {
        StillValid(lastArray);
      }
    }

    /** array_copy: a new array with the same contents; the cursor stays where it is. */
    static method Copy(a: Arr?) returns (b: Arr?)
      requires a != null ==> a.Valid()
      ensures b == null <==> a == null
      ensures b != null ==> fresh(b) && fresh(b.ring) && b.Valid() && b.Contents() == a.Contents()
    {
      hide Increasing;
      hide Distinct;
      hide Linked;
      hide Entries;
      hide Owned;
      hide MaxIndex;
      if a == null {
        return null;
      }
      var c := new Arr();
      CopyElements(a, c);
      c.maxIndex, c.numElements := a.maxIndex, a.numElements;
      b := c;
    }

    /** The loop of array_copy. */
    static method CopyElements(a: Arr, c: Arr)
      requires a.Valid() && c.Shaped() && |c.ring| == 1 && c != a
      modifies c`ring, c.ring`next, c.ring`prev
      ensures a.Valid() && a.Contents() == old(a.Contents()) && c.Shaped() && Entries(c.ring[1..]) == a.Contents()
      ensures |c.ring| == |a.ring| && forall k :: 0 < k < |c.ring| ==> fresh(c.ring[k])
    {
      hide Increasing;
      hide Distinct;
      hide Linked;
      hide Entries;
      hide Owned;
      hide MaxIndex;
      a.StepOnFromHead();
      a.HeadIsEnd(1);
      assert c.ring[1..] == c.ring[1..1];
      var ae := a.head.next;
      ghost var p := 1;
      while ae != a.head
        invariant a.Valid() && a.Contents() == old(a.Contents())
        invariant 0 < p <= |a.ring| && ae == a.At(p) && (ae == a.head <==> p == |a.ring|)
        invariant c.Shaped() && |c.ring| == p && c.ring[0] == old(c.ring[0]) && (forall k :: 0 < k < p ==> fresh(c.ring[k]))
        invariant Entries(c.ring[1..]) == Entries(a.ring[1..p])
        decreases |a.ring| - p
      {
        CopyNext(a, c, ae, p);
        a.StepOn(p);
        a.HeadIsEnd(p + 1);
        ae := ae.next;
        p := p + 1;
      }
      assert a.Contents() == Entries(a.ring[1..|a.ring|]) by {
        assert a.ring[1..] == a.ring[1..|a.ring|];
      }
    }

    /** The next element of a is copied behind those before it; a stays as it is. */
    static method CopyNext(a: Arr, c: Arr, ae: Element, ghost p: nat)
      requires a.Valid() && c.Shaped() && c != a && 0 < p < |a.ring| && ae == a.ring[p] && |c.ring| == p
      requires Entries(c.ring[1..]) == Entries(a.ring[1..p])
      modifies c`ring, c.ring`next, c.ring`prev
      ensures a.Valid() && a.Contents() == old(a.Contents())
      ensures c.Shaped() && |c.ring| == p + 1 && c.ring[..p] == old(c.ring) && fresh(c.ring[p])
      ensures Entries(c.ring[1..]) == Entries(a.ring[1..p + 1])
    {
      hide Increasing;
      hide Distinct;
      hide Linked;
      hide Entries;
      hide Owned;
      hide MaxIndex;
      OneMore(a.ring, p);
      OtherApart(c, a);
      CopyOne(c, ae);
      StillValid(a);
      OneMore(a.ring, p);
    }

    /** One turn of array_copy. */
    static method CopyOne(c: Arr, ae: Element)
      requires c.Shaped() && ae !in c.ring
      modifies c`ring, c.ring`next, c.ring`prev
      ensures c.Shaped() && |c.ring| == |old(c.ring)| + 1 && c.ring[..|old(c.ring)|] == old(c.ring)
              && fresh(c.ring[|old(c.ring)|])
      ensures Entries(c.ring[1..]) == old(Entries(c.ring[1..])) + [Entry(ae.ind, ae.value)]
    {
      hide Distinct;
      hide Linked;
      hide Entries;
      hide Owned;
      var added := new Element(ae.ind, ae.value, c);
      ghost var ring := c.ring;
      OwnedWith(ring, added, |ring|, c);
      AddBefore(c.head, added, ring, |ring|, ring[|ring| - 1]);
      assert ring[..|ring|] + [added] + ring[|ring|..] == ring + [added];
      c.ring := ring + [added];
      assert c.ring[1..] == ring[1..] + [added];
      EntriesJoin(ring[1..], [added]);
      EntriesOfOne(added);
    }

    /** array_rshift: the number of elements afterwards. */
    method RShift(a: Arr?, n: int, s: Value) returns (num: int)
      requires Sound() && (a != null ==> a.Valid())
      modifies this, Footprint(a)
      ensures Sound() && (a != null ==> a.Valid() && Grown(a, old(a.ring)))
      ensures a != null ==> a.Contents() == if n <= 0 then old(a.Contents()) else ShiftedRight(old(a.Contents()), n, s)
      ensures num == if a == null then 0 else |a.Contents()|
    {
      hide Put;
      hide Without;
      hide Increasing;
      hide Distinct;
      hide Linked;
      hide Entries;
      hide Owned;
      hide ToMap;
      hide ShiftedRight;
      hide MaxIndex;
      if a == null {
        return 0;
      }
      if a.numElements == 0 && s == Null {
        NothingShifts(n);
        return 0;
      }
      if n <= 0 {
        return a.numElements;
      }
      OtherApart(a, lastArray);
      if s == Null {
        a.ShiftUp(n);
      } else {
        a.ShiftIn(n, s);
      }
      if lastArray != null && lastArray != a {
        StillValid(lastArray);
      }
      Invalidate(a);
      num := a.numElements;
    }
  }

  lemma OneMore(ring: seq<Element>, p: nat)
    requires 0 < p < |ring|
    ensures Entries(ring[1..p + 1]) == Entries(ring[1..p]) + [Entry(ring[p].ind, ring[p].value)]
  {
    assert ring[1..p + 1] == ring[1..p] + [ring[p]];
    EntriesJoin(ring[1..p], [ring[p]]);
    EntriesOfOne(ring[p]);
  }

  lemma NothingShifts(n: int)
    ensures n > 0 ==> ShiftedRight([], n, Null) == [] && ShiftedLeft([], n) == []
  {
  }

  /** Two arrays share no element. */
  lemma OtherApart(a: Arr, b: Arr?)
    requires a.Shaped() && (b != null ==> b.Shaped())
    ensures b != null && b != a ==> forall e :: e in b.ring ==> e !in a.ring
  {
  }

  lemma NothingHeld(a: Arr, i: int)
    requires a.Valid() && a.numElements == 0
    ensures i !in ToMap(a.Contents()) && Without(a.Contents(), i) == a.Contents() && a.Contents() == []
  {
  }

  lemma NotHeld(a: Arr, i: int)
    requires a.Valid() && forall k :: 0 < k < |a.ring| ==> a.ring[k].ind != i
    ensures i !in ToMap(a.Contents()) && Without(a.Contents(), i) == a.Contents()
  {
    hide Distinct;
    hide Linked;
    hide Owned;
    hide ToMap;
    hide Without;
    EntriesAt(a.ring[1..]);
    KeysAreIndices(a.Contents(), i);
    WithoutAbsent(a.Contents(), i);
  }

  lemma Held(a: Arr, p: nat)
    requires a.Valid() && 0 < p < |a.ring|
    ensures a.ring[p].ind in ToMap(a.Contents()) && ToMap(a.Contents())[a.ring[p].ind] == a.ring[p].value
  {
    hide Distinct;
    hide Linked;
    hide Owned;
    hide ToMap;
    EntriesAt(a.ring[1..]);
    ValueAt(a.Contents(), p - 1);
  }

  /** The elements around element p. */
  lemma Neighbours(a: Arr, p: nat)
    requires a.Shaped() && 0 < p < |a.ring|
    ensures a.ring[p].prev == a.ring[p - 1] && a.ring[p].next == a.At(p + 1)
    ensures a.ring[p].prev == a.head <==> p == 1
    ensures a.ring[p].next == a.head <==> p + 1 == |a.ring|
  {
  }

  lemma TakenApart(ring: seq<Element>, p: nat)
    requires Distinct(ring) && 0 < p < |ring|
    ensures var fewer := ring[..p] + ring[p + 1..];
            && ring[p] !in fewer && (p + 1 < |ring| ==> ring[p + 1] in fewer[1..]) && (p > 1 ==> ring[p - 1] in fewer[1..])
            && forall e :: e in fewer ==> e in ring
  {
    var fewer := ring[..p] + ring[p + 1..];
    if p + 1 < |ring| {
      assert fewer[1..][p - 1] == ring[p + 1];
    }
    if p > 1 {
      assert fewer[1..][p - 2] == ring[p - 1];
    }
  }

  lemma Greatest(a: Arr)
    requires a.Valid()
    ensures |a.ring| > 1 ==> a.ring[|a.ring| - 1].ind == a.maxIndex
    ensures |a.ring| == 1 ==> a.maxIndex == -1
  {
    if |a.ring| > 1 {
      LastEntry(a.ring);
    }
  }

  lemma PlaceOf(a: Arr, e: Element) returns (p: nat)
    requires a.Valid() && e in a.ring[1..]
    ensures 0 < p < |a.ring| && a.ring[p] == e && forall k :: 0 < k < p ==> a.ring[k].ind < e.ind
  {
    hide Linked;
    hide Owned;
    hide Distinct;
    p :| 0 < p < |a.ring| && a.ring[p] == e;
    EntriesAt(a.ring[1..]);
    forall k | 0 < k < p ensures a.ring[k].ind < e.ind {
      assert a.Contents()[k - 1].ind < a.Contents()[p - 1].ind;
    }
  }
}

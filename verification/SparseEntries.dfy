/** array.c: what a sparse array holds, as a list of entries with increasing indices and as a map. */
module SparseEntries {

  /** A value: a string, or the null pointer. */
  datatype Value = Null | Text(s: string)

  datatype Entry = Entry(ind: int, value: Value)

  /** Indices are non-negative and strictly increasing. */
  predicate Increasing(es: seq<Entry>) {
    && (forall j :: 0 <= j < |es| ==> es[j].ind >= 0)
    && forall j, k :: 0 <= j < k < |es| ==> es[j].ind < es[k].ind
  }

  function MaxIndex(es: seq<Entry>): int {
    if es == [] then -1 else es[|es| - 1].ind
  }

  function ToMap(es: seq<Entry>): map<int, Value> {
    if es == [] then map[] else ToMap(es[1..])[es[0].ind := es[0].value]
  }

  /** a[i] = v. */
  function Put(es: seq<Entry>, i: int, v: Value): seq<Entry> {
    if es == [] || i < es[0].ind then [Entry(i, v)] + es
    else if es[0].ind == i then [Entry(i, v)] + es[1..]
    else [es[0]] + Put(es[1..], i, v)
  }

  /** unset a[i]. */
  function Without(es: seq<Entry>, i: int): seq<Entry> {
    if es == [] then [] else if es[0].ind == i then es[1..] else [es[0]] + Without(es[1..], i)
  }

  function Renumbered(es: seq<Entry>, delta: int): seq<Entry> {
    if es == [] then [] else [Entry(es[0].ind + delta, es[0].value)] + Renumbered(es[1..], delta)
  }

  /** Left shift: the first n entries go, the others move down by n. */
  function ShiftedLeft(es: seq<Entry>, n: nat): seq<Entry> {
    if |es| <= n then [] else Renumbered(es[n..], -(n as int))
  }

  /** Right shift: all entries move up by n, and a non-null value becomes entry 0. */
  function ShiftedRight(es: seq<Entry>, n: nat, s: Value): seq<Entry> {
    (if s.Null? then [] else [Entry(0, s)]) + Renumbered(es, n)
  }

  // ----- agreement with maps -----

  lemma {:induction false} KeysAreIndices(es: seq<Entry>, i: int)
    ensures i in ToMap(es) <==> exists k :: 0 <= k < |es| && es[k].ind == i
  {
    if es != [] {
      KeysAreIndices(es[1..], i);
      if i in ToMap(es[1..]) {
        var k :| 0 <= k < |es[1..]| && es[1..][k].ind == i;
        assert es[k + 1].ind == i;
      }
      if k :| 0 <= k < |es| && es[k].ind == i {
        if k > 0 {
          assert es[1..][k - 1].ind == i;
        }
      }
    }
  }

  lemma {:induction false} ValueAt(es: seq<Entry>, k: nat)
    requires Increasing(es) && k < |es|
    ensures es[k].ind in ToMap(es) && ToMap(es)[es[k].ind] == es[k].value
  {
    if k > 0 {
      ValueAt(es[1..], k - 1);
    }
  }

  /** num_elements is the number of keys, max_index the greatest key. */
  lemma {:induction false} CountAndMax(es: seq<Entry>)
    requires Increasing(es)
    ensures |ToMap(es)| == |es|
    ensures es != [] ==> MaxIndex(es) in ToMap(es)
    ensures forall i :: i in ToMap(es) ==> 0 <= i <= MaxIndex(es)
  {
    forall i | i in ToMap(es) ensures 0 <= i <= MaxIndex(es) {
      KeysAreIndices(es, i);
    }
    if es != [] {
      ValueAt(es, |es| - 1);
      CountAndMax(es[1..]);
      KeysAreIndices(es[1..], es[0].ind);
      assert ToMap(es).Keys == ToMap(es[1..]).Keys + {es[0].ind};
    }
  }

  lemma {:induction false} PutIncreases(es: seq<Entry>, i: int, v: Value)
    requires Increasing(es) && i >= 0
    ensures Increasing(Put(es, i, v)) && Put(es, i, v) != []
    ensures Put(es, i, v)[0].ind == if es == [] || i < es[0].ind then i else es[0].ind
  {
    if es != [] && es[0].ind < i {
      PutIncreases(es[1..], i, v);
      assert Increasing([es[0]] + (Put(es[1..], i, v)));
    }
  }

  /** Assignment is map update. */
  lemma {:induction false} PutIsUpdate(es: seq<Entry>, i: int, v: Value)
    requires Increasing(es) && i >= 0
    ensures ToMap(Put(es, i, v)) == ToMap(es)[i := v]
  {
    if es == [] || i < es[0].ind {
      assert ([Entry(i, v)] + es)[1..] == es;
    } else if es[0].ind == i {
      assert ([Entry(i, v)] + es[1..])[1..] == es[1..];
    } else {
      PutIsUpdate(es[1..], i, v);
      assert ([es[0]] + Put(es[1..], i, v))[1..] == Put(es[1..], i, v);
    }
  }

  lemma {:induction false} WithoutIncreases(es: seq<Entry>, i: int)
    requires Increasing(es)
    ensures Increasing(Without(es, i)) && (Without(es, i) != [] && es != [] ==> Without(es, i)[0].ind >= es[0].ind)
  {
    if es != [] && es[0].ind != i {
      WithoutIncreases(es[1..], i);
      assert Increasing([es[0]] + (Without(es[1..], i)));
    }
  }

  /** unset is map removal. */
  lemma {:induction false} WithoutIsRemoval(es: seq<Entry>, i: int)
    requires Increasing(es)
    ensures ToMap(Without(es, i)) == ToMap(es) - {i}
  {
    if es != [] {
      if es[0].ind == i {
        KeysAreIndices(es[1..], i);
      } else {
        WithoutIsRemoval(es[1..], i);
        assert ([es[0]] + Without(es[1..], i))[1..] == Without(es[1..], i);
      }
    }
  }

  // ----- shifts -----

  lemma {:induction false} RenumberedAt(es: seq<Entry>, delta: int)
    ensures |Renumbered(es, delta)| == |es|
    ensures forall k :: 0 <= k < |es| ==> Renumbered(es, delta)[k] == Entry(es[k].ind + delta, es[k].value)
  {
    if es != [] {
      RenumberedAt(es[1..], delta);
    }
  }

  /** Strictly increasing non-negative indices are at least their positions. */
  lemma {:induction false} IndexAtLeastPosition(es: seq<Entry>, k: nat)
    requires Increasing(es) && k < |es|
    ensures es[k].ind >= k
  {
    if k > 0 {
      IndexAtLeastPosition(es, k - 1);
    }
  }

  lemma ShiftedLeftIncreases(es: seq<Entry>, n: nat)
    requires Increasing(es)
    ensures Increasing(ShiftedLeft(es, n))
  {
    if n < |es| {
      RenumberedAt(es[n..], -(n as int));
      IndexAtLeastPosition(es, n);
    }
  }

  lemma ShiftedRightIncreases(es: seq<Entry>, n: nat, s: Value)
    requires Increasing(es) && n > 0
    ensures Increasing(ShiftedRight(es, n, s))
  {
    RenumberedAt(es, n);
  }

  /** After a left shift a[k] is what a[k + n] was, for the entries that are left. */
  lemma ShiftedLeftIsRenumbering(es: seq<Entry>, n: nat, i: int)
    requires Increasing(es) && n < |es|
    ensures i in ToMap(ShiftedLeft(es, n)) <==> i + n >= es[n].ind && i + n in ToMap(es)
    ensures i in ToMap(ShiftedLeft(es, n)) ==> ToMap(ShiftedLeft(es, n))[i] == ToMap(es)[i + n]
  {
    hide ToMap;
    hide Renumbered;
    var left := ShiftedLeft(es, n);
    RenumberedAt(es[n..], -(n as int));
    ShiftedLeftIncreases(es, n);
    KeysAreIndices(left, i);
    KeysAreIndices(es, i + n);
    if k :| 0 <= k < |left| && left[k].ind == i {
      assert es[n..][k] == es[n + k];
      ValueAt(left, k);
      ValueAt(es, n + k);
    }
    if i + n >= es[n].ind && i + n in ToMap(es) {
      var k :| 0 <= k < |es| && es[k].ind == i + n;
      assert k >= n;
      assert es[n..][k - n] == es[k] && left[k - n].ind == i;
    }
  }

  /** After a right shift a[k + n] is what a[k] was, and a[0] is the new value when there is one. */
  lemma ShiftedRightIsRenumbering(es: seq<Entry>, n: nat, s: Value, i: int)
    requires Increasing(es) && n > 0 && i != 0
    ensures i in ToMap(ShiftedRight(es, n, s)) <==> i - n in ToMap(es)
    ensures i in ToMap(ShiftedRight(es, n, s)) ==> ToMap(ShiftedRight(es, n, s))[i] == ToMap(es)[i - n]
  {
    hide ToMap;
    hide Renumbered;
    var right, extra := ShiftedRight(es, n, s), if s.Null? then 0 else 1;
    RenumberedAt(es, n);
    ShiftedRightIncreases(es, n, s);
    KeysAreIndices(right, i);
    KeysAreIndices(es, i - n);
    if k :| 0 <= k < |right| && right[k].ind == i {
      assert right[k] == Renumbered(es, n)[k - extra];
      ValueAt(right, k);
      ValueAt(es, k - extra);
    }
    if k :| 0 <= k < |es| && es[k].ind == i - n {
      assert right[k + extra] == Renumbered(es, n)[k];
    }
  }

  lemma FirstAfterRightShift(es: seq<Entry>, n: nat, s: Value)
    requires Increasing(es) && n > 0
    ensures 0 in ToMap(ShiftedRight(es, n, s)) <==> s != Null
    ensures s != Null ==> ToMap(ShiftedRight(es, n, s))[0] == s
  {
    hide ToMap;
    hide Renumbered;
    RenumberedAt(es, n);
    ShiftedRightIncreases(es, n, s);
    KeysAreIndices(ShiftedRight(es, n, s), 0);
    if s != Null {
      ValueAt(ShiftedRight(es, n, s), 0);
    }
  }

  /** Pushing a value in front and shifting it out again gives the array back, the empty one included. */
  lemma ShiftUndoesUnshift(es: seq<Entry>, s: Value)
    requires s != Null
    ensures ShiftedLeft(ShiftedRight(es, 1, s), 1) == es
  {
    var right := ShiftedRight(es, 1, s);
    assert right[1..] == Renumbered(es, 1);
    RenumberedAt(es, 1);
    RenumberedAt(right[1..], -1);
    if es != [] {
      assert ShiftedLeft(right, 1) == es;
    }
  }

  // ----- positions, for the walks along the list -----

  lemma {:induction false} PutAt(es: seq<Entry>, i: int, v: Value, p: nat)
    requires p <= |es| && (forall k :: 0 <= k < p ==> es[k].ind < i) && (p < |es| ==> i <= es[p].ind)
    ensures Put(es, i, v) == es[..p] + [Entry(i, v)] + es[if p < |es| && es[p].ind == i then p + 1 else p..]
  {
    if p > 0 {
      PutAt(es[1..], i, v, p - 1);
    }
  }

  lemma {:induction false} WithoutAt(es: seq<Entry>, p: nat)
    requires p < |es| && forall k :: 0 <= k < p ==> es[k].ind != es[p].ind
    ensures Without(es, es[p].ind) == es[..p] + es[p + 1..]
  {
    if p > 0 {
      assert es[1..][p - 1] == es[p];
      WithoutAt(es[1..], p - 1);
    }
  }

  lemma {:induction false} WithoutAbsent(es: seq<Entry>, i: int)
    requires forall k :: 0 <= k < |es| ==> es[k].ind != i
    ensures Without(es, i) == es
  {
    if es != [] {
      WithoutAbsent(es[1..], i);
    }
  }
}

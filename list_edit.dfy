/** The in-place list edits the `append_value`, `insert_value` and
    `remove_value` commands make: Python's `list.append`, `list.insert`, the
    `in` test and `list.remove`, as functions from the old list to the new.
 */
module ListEdit {
  import opened Wrappers
  import opened Values

  // ---------------------------------------------------------------------
  // list.insert(index, value)
  // ---------------------------------------------------------------------

  /** Where `list.insert(index, x)` puts `x` in a list of length `n`: a
      negative index counts from the end and stops at the front, an index
      past the end stops at the end. */
  function InsertPosition(n: nat, index: int): (pos: nat)
    ensures pos <= n
    ensures 0 <= index <= n ==> pos == index
    ensures n < index ==> pos == n
    ensures -(n as int) <= index < 0 ==> pos == n + index
    ensures index < -(n as int) ==> pos == 0
  {
    if index < 0 then (if n + index < 0 then 0 else n + index)
    else if index > n then n
    else index
  }

  /** `xs.insert(index, v)`: `v` lands at the insert position, the elements
      before it stay in front of it and the rest follow it, in order. */
  function Insert<T>(xs: seq<T>, index: int, v: T): (r: seq<T>)
    ensures var pos := InsertPosition(|xs|, index);
      && |r| == |xs| + 1
      && r[pos] == v
      && r[..pos] == xs[..pos]
      && r[pos + 1..] == xs[pos..]
  {
    var pos := InsertPosition(|xs|, index);
    assert (xs[..pos] + [v])[..pos] == xs[..pos];
    xs[..pos] + [v] + xs[pos..]
  }

  /** `del xs[pos]`. */
  function Delete<T>(xs: seq<T>, pos: nat): (r: seq<T>)
    requires pos < |xs|
    ensures |r| == |xs| - 1
  {
    xs[..pos] + xs[pos + 1..]
  }

  /** Deleting takes out exactly the element at `pos`. */
  lemma DeleteMultiset<T>(xs: seq<T>, pos: nat)
    requires pos < |xs|
    ensures multiset(Delete(xs, pos)) + multiset{xs[pos]} == multiset(xs)
  {
    assert xs == xs[..pos] + [xs[pos]] + xs[pos + 1..];
  }

  /** Deleting what was inserted gives the list back. */
  lemma InsertDelete<T>(xs: seq<T>, index: int, v: T)
    ensures Delete(Insert(xs, index, v), InsertPosition(|xs|, index)) == xs
  {
    var pos := InsertPosition(|xs|, index);
    var r := Insert(xs, index, v);
    assert r[..pos] + r[pos + 1..] == xs[..pos] + xs[pos..];
    assert xs[..pos] + xs[pos..] == xs;
  }

  /** Inserting the deleted element where it was undoes the delete. */
  lemma DeleteInsert<T>(xs: seq<T>, pos: nat)
    requires pos < |xs|
    ensures Insert(Delete(xs, pos), pos, xs[pos]) == xs
  {
    var ys := Delete(xs, pos);
    assert ys[..pos] == xs[..pos] && ys[pos..] == xs[pos + 1..];
    assert xs[..pos] + [xs[pos]] + xs[pos + 1..] == xs;
  }

  /** Inserting adds exactly one element, `v`. */
  lemma InsertMultiset<T>(xs: seq<T>, index: int, v: T)
    ensures multiset(Insert(xs, index, v)) == multiset(xs) + multiset{v}
  {
    var pos := InsertPosition(|xs|, index);
    assert xs == xs[..pos] + xs[pos..];
  }

  /** An index at or past the end appends, as `list.append` would. */
  lemma InsertPastEnd<T>(xs: seq<T>, index: int, v: T)
    requires index >= |xs|
    ensures Insert(xs, index, v) == xs + [v]
  {
    assert xs[..|xs|] == xs && xs[|xs|..] == [];
  }

  /** Index -1 inserts in front of the last element. */
  lemma InsertBeforeLast<T>(xs: seq<T>, v: T)
    requires xs != []
    ensures Insert(xs, -1, v) == xs[..|xs| - 1] + [v, xs[|xs| - 1]]
  {
    var n := |xs|;
    assert xs[n - 1..] == [xs[n - 1]];
  }

  // ---------------------------------------------------------------------
  // value in list, list.remove(value)
  // ---------------------------------------------------------------------

  /** Some element equals `v`, comparing `element == v` as `list.remove`
      and `list.index` do. */
  predicate Contains(xs: seq<Value>, v: Value)
  {
    exists i :: 0 <= i < |xs| && Equal(xs[i], v)
  }

  /** Python's `v in xs`, which compares `v == element`. */
  predicate In(v: Value, xs: seq<Value>)
  {
    exists i :: 0 <= i < |xs| && Equal(v, xs[i])
  }

  /** The `in` test and the search of `list.remove` compare in opposite
      orders, and agree. */
  lemma InContains(v: Value, xs: seq<Value>)
    ensures In(v, xs) <==> Contains(xs, v)
  {
    if In(v, xs) {
      var i :| 0 <= i < |xs| && Equal(v, xs[i]);
      EqualSymmetric(v, xs[i]);
    }
    if Contains(xs, v) {
      var i :| 0 <= i < |xs| && Equal(xs[i], v);
      EqualSymmetric(xs[i], v);
    }
  }

  /** `xs.index(v)`: the first position holding a value equal to `v`, or
      nothing when there is none. */
  function IndexOf(xs: seq<Value>, v: Value): (r: Option<nat>)
    ensures r.None? <==> !Contains(xs, v)
    ensures r.Some? ==> r.value < |xs| && Equal(xs[r.value], v)
    ensures r.Some? ==> forall j :: 0 <= j < r.value ==> !Equal(xs[j], v)
  {
    if xs == [] then None
    else if Equal(xs[0], v) then Some(0)
    else
      match IndexOf(xs[1..], v)
      case None =>
        assert forall i :: 1 <= i < |xs| ==> xs[i] == xs[1..][i - 1];
        None
      case Some(k) => Some(k + 1)
  }

  /** `xs.remove(v)`: nothing when no element equals `v` (Python raises
      `ValueError`), otherwise the list without its FIRST element equal to
      `v`, everything else in order. */
  function Remove(xs: seq<Value>, v: Value): (r: Option<seq<Value>>)
    ensures r.None? <==> !Contains(xs, v)
    ensures r.Some? ==> r.value == Delete(xs, IndexOf(xs, v).value)
  {
    if xs == [] then None
    else if Equal(xs[0], v) then Some(xs[1..])
    else
      var rest := Remove(xs[1..], v);
      SkipMismatch(xs, v);
      if rest.None? then None
      else
        DeleteCons(xs, IndexOf(xs[1..], v).value);
        Some([xs[0]] + rest.value)
  }

  /** Past a first element that does not match, the search goes on in the
      rest of the list. */
  lemma SkipMismatch(xs: seq<Value>, v: Value)
    requires xs != [] && !Equal(xs[0], v)
    ensures Contains(xs, v) <==> Contains(xs[1..], v)
    ensures IndexOf(xs[1..], v).Some? ==> IndexOf(xs, v) == Some(IndexOf(xs[1..], v).value + 1)
  {
    if Contains(xs, v) {
      var i :| 0 <= i < |xs| && Equal(xs[i], v);
      assert xs[1..][i - 1] == xs[i];
    }
    if Contains(xs[1..], v) {
      var i :| 0 <= i < |xs[1..]| && Equal(xs[1..][i], v);
      assert xs[i + 1] == xs[1..][i];
    }
  }

  lemma DeleteCons<T>(xs: seq<T>, k: nat)
    requires k + 1 < |xs|
    ensures Delete(xs, k + 1) == [xs[0]] + Delete(xs[1..], k)
  {
    assert xs[..k + 1] == [xs[0]] + xs[1..][..k];
    assert xs[k + 2..] == xs[1..][k + 1..];
  }

  /** Removing and re-inserting the removed element where it was gives the
      list back. */
  lemma RemoveInsert(xs: seq<Value>, v: Value)
    requires Contains(xs, v)
    ensures var k := IndexOf(xs, v).value;
            Insert(Remove(xs, v).value, k, xs[k]) == xs
  {
    DeleteInsert(xs, IndexOf(xs, v).value);
  }

  /** Removal takes out exactly one element, the one found. */
  lemma RemoveMultiset(xs: seq<Value>, v: Value)
    requires Contains(xs, v)
    ensures var k := IndexOf(xs, v).value;
            multiset(Remove(xs, v).value) + multiset{xs[k]} == multiset(xs)
  {
    DeleteMultiset(xs, IndexOf(xs, v).value);
  }

  /** The first position holding a match is what `IndexOf` finds. */
  lemma IndexOfFirst(xs: seq<Value>, v: Value, k: nat)
    requires k < |xs| && Equal(xs[k], v)
    requires forall j :: 0 <= j < k ==> !Equal(xs[j], v)
    ensures IndexOf(xs, v) == Some(k)
  {
  }

  /** Only the first match goes: a second element equal to `v` is still in
      the list afterwards. */
  lemma RemoveOnlyFirst(xs: seq<Value>, v: Value, i: nat, j: nat)
    requires i < j < |xs| && Equal(xs[i], v) && Equal(xs[j], v)
    ensures Remove(xs, v).Some? && Contains(Remove(xs, v).value, v)
  {
    var k := IndexOf(xs, v).value;
    var ys := Remove(xs, v).value;
    assert k <= i;
    assert ys[j - 1] == xs[j];
  }

  /** Removing a value that was absent and then appended undoes the append. */
  lemma RemoveAppended(xs: seq<Value>, v: Value)
    requires !Contains(xs, v)
    ensures Remove(xs + [v], v) == Some(xs)
  {
    var ys := xs + [v];
    EqualReflexive(v);
    forall j | 0 <= j < |xs|
      ensures !Equal(ys[j], v)
    {
      assert ys[j] == xs[j];
    }
    IndexOfFirst(ys, v, |xs|);
    assert Contains(ys, v);
    assert ys[..|xs|] == xs && ys[|xs| + 1..] == [];
    assert Delete(ys, |xs|) == xs;
  }
}

/** Positional edits of lists, as `Array.prototype.splice` performs them. */
module Lists {

  /** `list` without its element at `k`. */
  function RemoveAt<T>(list: seq<T>, k: nat): (r: seq<T>)
    requires k < |list|
    ensures |r| == |list| - 1
    ensures forall i :: 0 <= i < k ==> r[i] == list[i]
    ensures forall i :: k <= i < |r| ==> r[i] == list[i + 1]
  {
    list[..k] + list[k + 1..]
  }

  /** `list` with `x` inserted so that it lands at index `k`. */
  function InsertAt<T>(list: seq<T>, k: nat, x: T): (r: seq<T>)
    requires k <= |list|
    ensures |r| == |list| + 1 && r[k] == x
    ensures forall i :: 0 <= i < k ==> r[i] == list[i]
    ensures forall i :: k < i < |r| ==> r[i] == list[i - 1]
  {
    list[..k] + [x] + list[k..]
  }

  /** Inserting and then removing at the same index gives the list back. */
  lemma RemoveInserted<T>(list: seq<T>, k: nat, x: T)
    requires k <= |list|
    ensures RemoveAt(InsertAt(list, k, x), k) == list
  {
    var r := RemoveAt(InsertAt(list, k, x), k);
    assert forall i :: 0 <= i < |list| ==> r[i] == list[i];
  }

  /** Removing and then re-inserting the same element at the same index gives the list back. */
  lemma InsertRemoved<T>(list: seq<T>, k: nat)
    requires k < |list|
    ensures InsertAt(RemoveAt(list, k), k, list[k]) == list
  {
    var r := InsertAt(RemoveAt(list, k), k, list[k]);
    assert forall i :: 0 <= i < |list| ==> r[i] == list[i];
  }

  /** `splice(idx, 1)`: the entry at `idx` is removed; an index past the end removes nothing. */
  function Splice<T>(list: seq<T>, idx: nat): (r: seq<T>)
    ensures idx < |list| ==> |r| == |list| - 1 && r == list[..idx] + list[idx + 1..]
    ensures idx >= |list| ==> r == list
  {
    if idx < |list| then RemoveAt(list, idx) else list
  }

  /** `list.filter(y => y !== x)`: every entry equal to `x` is dropped, the rest keep their order. */
  function Without<T(==,!new)>(list: seq<T>, x: T): (r: seq<T>)
    ensures x !in r
    ensures |r| <= |list|
    ensures forall y :: y in list && y != x <==> y in r
  {
    if list == [] then []
    else (if list[0] == x then [] else [list[0]]) + Without(list[1..], x)
  }

  /** Dropping an entry that is not there changes nothing. */
  lemma {:induction false} WithoutAbsent<T(!new)>(list: seq<T>, x: T)
    requires x !in list
    ensures Without(list, x) == list
  {
    if list != [] {
      WithoutAbsent(list[1..], x);
      assert list == [list[0]] + list[1..];
    }
  }

  /** Filtering distributes over concatenation. */
  lemma {:induction false} WithoutAppend<T(!new)>(a: seq<T>, b: seq<T>, x: T)
    ensures Without(a + b, x) == Without(a, x) + Without(b, x)
  {
    if a != [] {
      WithoutAppend(a[1..], b, x);
      assert (a + b)[1..] == a[1..] + b;
    } else {
      assert a + b == b;
    }
  }
}

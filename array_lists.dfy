/**
 * The java.util.ArrayList operations the database list relies on, as functions
 * on sequences. Positions are those of `List.add(int, E)`, `List.remove(int)`,
 * `List.remove(Object)`, `List.indexOf` and `List.lastIndexOf`.
 */
module ArrayLists {

  /** `list.add(index, x)`: shifts the elements from `index` on one place right. */
  function Insert<X>(s: seq<X>, index: nat, x: X): (r: seq<X>)
    requires index <= |s|
    ensures |r| == |s| + 1 && r[index] == x
  {
    assert s == s[..index] + s[index..];
    s[..index] + [x] + s[index..]
  }

  /** `list.remove(index)`: shifts the elements after `index` one place left. */
  function RemoveAt<X>(s: seq<X>, index: nat): (r: seq<X>)
    requires index < |s|
    ensures |r| == |s| - 1
  {
    assert s == s[..index] + [s[index]] + s[index + 1..];
    s[..index] + s[index + 1..]
  }

  /** An insertion adds exactly the inserted element: the rest of the list is only shifted. */
  lemma InsertAddsOne<X>(s: seq<X>, index: nat, x: X)
    requires index <= |s|
    ensures multiset(Insert(s, index, x)) == multiset(s) + multiset{x}
  {
    assert s == s[..index] + s[index..];
  }

  /** A removal takes away exactly the removed element: the rest of the list is only shifted. */
  lemma RemoveAtDropsOne<X>(s: seq<X>, index: nat)
    requires index < |s|
    ensures multiset(RemoveAt(s, index)) == multiset(s) - multiset{s[index]}
  {
    assert s == s[..index] + [s[index]] + s[index + 1..];
  }

  /** Removing what was just inserted at the same place gives back the list. */
  lemma RemoveInserted<X>(s: seq<X>, index: nat, x: X)
    requires index <= |s|
    ensures RemoveAt(Insert(s, index, x), index) == s
  {
    var t := Insert(s, index, x);
    assert RemoveAt(t, index) == t[..index] + t[index + 1..];
    assert s == s[..index] + s[index..];
  }

  /** After a removal, the elements before the gap keep their index and the rest move one down. */
  lemma RemoveAtIndex<X>(s: seq<X>, index: nat, j: nat)
    requires index < |s| && j < |s| - 1
    ensures RemoveAt(s, index)[j] == s[if j < index then j else j + 1]
  {
    var r := RemoveAt(s, index);
    if j < index {
      assert r[..index][j] == s[..index][j];
    } else {
      assert r[index..][j - index] == s[index + 1..][j - index];
    }
  }

  /** Removing an element and inserting another at the same place replaces it. */
  lemma ReplaceByRemoveInsert<X>(s: seq<X>, index: nat, x: X)
    requires index < |s|
    ensures Insert(RemoveAt(s, index), index, x) == s[index := x]
  {
    var rest := RemoveAt(s, index);
    assert s[index + 1..] == rest[index..];
    assert s[..index] == rest[..index];
  }

  /** `list.indexOf(x)`: the first position holding `x`, or -1. */
  function IndexOf<X(==)>(s: seq<X>, x: X): (r: int)
    ensures -1 <= r < |s|
    ensures r == -1 <==> x !in s
    ensures r >= 0 ==> s[r] == x && x !in s[..r]
  {
    if s == [] then -1
    else if s[0] == x then 0
    else
      var i := IndexOf(s[1..], x);
      if i == -1 then -1
      else
        assert s[..i + 1] == [s[0]] + s[1..][..i];
        i + 1
  }

  /** `list.lastIndexOf(x)`: the last position holding `x`, or -1. */
  function LastIndexOf<X(==)>(s: seq<X>, x: X): (r: int)
    ensures -1 <= r < |s|
    ensures r == -1 <==> x !in s
    ensures r >= 0 ==> s[r] == x && x !in s[r + 1..]
  {
    if s == [] then -1
    else
      var init, last := s[..|s| - 1], s[|s| - 1];
      assert s == init + [last];
      if last == x then |s| - 1
      else
        var i := LastIndexOf(init, x);
        assert i >= 0 ==> s[i + 1..] == init[i + 1..] + [last];
        i
  }

  /** `list.remove(x)`: removes the first element equal to `x`, if there is one. */
  function RemoveFirst<X(==)>(s: seq<X>, x: X): (r: seq<X>)
    ensures x !in s ==> r == s
    ensures x in s ==> |r| == |s| - 1
  {
    if s == [] then []
    else if s[0] == x then s[1..]
    else
      assert s == [s[0]] + s[1..];
      [s[0]] + RemoveFirst(s[1..], x)
  }

  /** What `remove(x)` removes is the element at `indexOf(x)`. */
  lemma {:induction false} RemoveFirstIsRemoveAt<X>(s: seq<X>, x: X)
    requires x in s
    ensures RemoveFirst(s, x) == RemoveAt(s, IndexOf(s, x))
  {
    if s[0] == x {
      assert RemoveAt(s, 0) == s[1..];
    } else {
      assert s == [s[0]] + s[1..];
      RemoveFirstIsRemoveAt(s[1..], x);
      RemoveAtCons(s, IndexOf(s[1..], x));
    }
  }

  /** Removing past the head commutes with putting the head back. */
  lemma RemoveAtCons<X>(s: seq<X>, index: nat)
    requires 0 < |s| && index < |s| - 1
    ensures RemoveAt(s, index + 1) == [s[0]] + RemoveAt(s[1..], index)
  {
    assert s[..index + 1] == [s[0]] + s[1..][..index];
    assert s[index + 2..] == s[1..][index + 1..];
  }
}

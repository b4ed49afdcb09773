/**
 * The read-only face of a list: every mutator throws
 * UnsupportedOperationException and leaves the list as it was, and the
 * iterators handed out only traverse.
 */
module ImmutableList {
  import opened Outcomes

  /** A call of one of the list's mutators, with its arguments. */
  datatype Mutation<E> =
    | Add(element: E)                        // add(E)
    | Remove(o: E)                           // remove(Object)
    | AddAll(c: seq<E>)                      // addAll(Collection)
    | AddAllAt(index: int, c: seq<E>)        // addAll(int, Collection)
    | RemoveAll(c: seq<E>)                   // removeAll(Collection)
    | RetainAll(c: seq<E>)                   // retainAll(Collection)
    | Clear                                  // clear()
    | Set(index: int, element: E)            // set(int, E)
    | AddAt(index: int, element: E)          // add(int, E)
    | RemoveAt(index: int)                   // remove(int)
    | SubList(fromIndex: int, toIndex: int)  // subList(int, int)

  /** What a mutator call leaves behind: how it ended, and the list's contents afterwards. */
  datatype Attempt<E> = Attempt(outcome: Outcome, contents: seq<E>)

  /**
   * A mutator called on a list holding `contents`: it throws
   * UnsupportedOperationException whatever its arguments (an index out of
   * range included) and leaves the contents unmodified.
   */
  function Mutate<E>(contents: seq<E>, m: Mutation<E>): (r: Attempt<E>)
    ensures r.outcome == Fail(UnsupportedOperation)
    ensures r.contents == contents
  {
    Attempt(Fail(UnsupportedOperation), contents)
  }

  /**
   * Mutator calls made one after the other: the contents left, and how each
   * call ended. This and the lemma below restate `Mutate`'s promise for a
   * series of calls.
   */
  function MutateAll<E>(contents: seq<E>, ms: seq<Mutation<E>>): (r: (seq<E>, seq<Outcome>))
    ensures |r.1| == |ms|
  {
    if ms == [] then (contents, [])
    else
      var first := Mutate(contents, ms[0]);
      var rest := MutateAll(first.contents, ms[1..]);
      (rest.0, [first.outcome] + rest.1)
  }

  /**
   * However many mutators are called, each one throws and the list reads the
   * same afterwards: same size, same element at every index.
   */
  lemma {:induction false} MutatorsLeaveListUnchanged<E>(contents: seq<E>, ms: seq<Mutation<E>>)
    ensures |MutateAll(contents, ms).0| == |contents|
    ensures forall i :: 0 <= i < |contents| ==> MutateAll(contents, ms).0[i] == contents[i]
    ensures forall k :: 0 <= k < |ms| ==> MutateAll(contents, ms).1[k] == Fail(UnsupportedOperation)
  {
    if ms != [] {
      MutatorsLeaveListUnchanged(contents, ms[1..]);
    }
  }

  /**
   * The iterator of `iterator()`: a cursor over the list as it was when the
   * iterator was made. `cursor` is the index of the element `next()` returns.
   */
  class ImmutableIterator<E> {
    const elements: seq<E>
    var cursor: nat

    ghost predicate Valid()
      reads this
    {
      cursor <= |elements|
    }

    constructor (elements: seq<E>)
      ensures Valid() && this.elements == elements && cursor == 0
    {
      this.elements := elements;
      cursor := 0;
    }

    /** `hasNext()`: some element is still ahead of the cursor. */
    function HasNext(): (b: bool)
      reads this
      requires Valid()
      ensures b <==> cursor < |elements|
    {
      cursor != |elements|
    }

    /** `next()`: the element ahead of the cursor, and the cursor steps past it. */
    method Next() returns (r: Result<E>)
      requires Valid()
      modifies this
      ensures Valid()
      ensures old(cursor) < |elements| ==> r == Ok(elements[old(cursor)]) && cursor == old(cursor) + 1
      ensures old(cursor) == |elements| ==> r == Err(NoSuchElement) && cursor == old(cursor)
    {
      if cursor == |elements| {
        return Err(NoSuchElement);
      }
      r := Ok(elements[cursor]);
      cursor := cursor + 1;
    }

    /** `remove()`: not overridden, so Iterator's default applies and always throws. */
    function Remove(): (r: Outcome)
      ensures r.Fail? && r.error == UnsupportedOperation
    {
      Fail(UnsupportedOperation)
    }
  }

  /**
   * The iterator of `listIterator()`: a cursor between two elements of the
   * list as it was when the iterator was made. It moves both ways and refuses
   * every change.
   */
  class ImmutableListIterator<E> {
    const elements: seq<E>
    var cursor: nat

    ghost predicate Valid()
      reads this
    {
      cursor <= |elements|
    }

    constructor (elements: seq<E>, index: nat)
      requires index <= |elements|
      ensures Valid() && this.elements == elements && cursor == index
    {
      this.elements := elements;
      cursor := index;
    }

    /** `hasNext()`: some element is after the cursor. */
    function HasNext(): (b: bool)
      reads this
      requires Valid()
      ensures b <==> NextIndex() < |elements|
    {
      cursor != |elements|
    }

    /** `hasPrevious()`: some element is before the cursor. */
    function HasPrevious(): (b: bool)
      reads this
      requires Valid()
      ensures b <==> PreviousIndex() >= 0
    {
      cursor != 0
    }

    /** `nextIndex()`: the index of the element `next()` would return (the size at the end). */
    function NextIndex(): (i: nat)
      reads this
      requires Valid()
      ensures i <= |elements|
      ensures i == PreviousIndex() + 1
    {
      cursor
    }

    /** `previousIndex()`: the index of the element `previous()` would return (-1 at the start). */
    function PreviousIndex(): (i: int)
      reads this
      requires Valid()
      ensures -1 <= i < |elements|
    {
      cursor - 1
    }

    /** `next()`: the element after the cursor, and the cursor steps forward past it. */
    method Next() returns (r: Result<E>)
      requires Valid()
      modifies this
      ensures Valid()
      ensures old(HasNext()) ==> r == Ok(elements[old(NextIndex())]) && PreviousIndex() == old(NextIndex())
      ensures !old(HasNext()) ==> r == Err(NoSuchElement) && cursor == old(cursor)
    {
      if cursor == |elements| {
        return Err(NoSuchElement);
      }
      r := Ok(elements[cursor]);
      cursor := cursor + 1;
    }

    /** `previous()`: the element before the cursor, and the cursor steps back past it. */
    method Previous() returns (r: Result<E>)
      requires Valid()
      modifies this
      ensures Valid()
      ensures old(HasPrevious()) ==> r == Ok(elements[old(PreviousIndex())]) && NextIndex() == old(PreviousIndex())
      ensures !old(HasPrevious()) ==> r == Err(NoSuchElement) && cursor == old(cursor)
    {
      if cursor == 0 {
        return Err(NoSuchElement);
      }
      cursor := cursor - 1;
      r := Ok(elements[cursor]);
    }

    /** `remove()`: always throws; the cursor does not move. */
    function Remove(): (r: Outcome)
      ensures r.Fail? && r.error == UnsupportedOperation
    {
      Fail(UnsupportedOperation)
    }

    /** `set(e)`: always throws; the cursor does not move. */
    function Set(e: E): (r: Outcome)
      ensures r.Fail? && r.error == UnsupportedOperation
    {
      Fail(UnsupportedOperation)
    }

    /** `add(e)`: always throws; the cursor does not move. */
    function Add(e: E): (r: Outcome)
      ensures r.Fail? && r.error == UnsupportedOperation
    {
      Fail(UnsupportedOperation)
    }
  }

  /** `next()` followed by `previous()` returns the same element twice and puts the cursor back. */
  method NextThenPrevious<E>(it: ImmutableListIterator<E>) returns (forth: Result<E>, back: Result<E>)
    requires it.Valid() && it.HasNext()
    modifies it
    ensures it.Valid() && it.cursor == old(it.cursor)
    ensures forth.Ok? && forth == back
  {
    forth := it.Next();
    back := it.Previous();
  }
}

# FirebaseArray, modelled in Dafny

A model of the live list at the heart of FirebaseUI's `database` package.
`FirebaseArray` is a read-only `List<DataSnapshot>`. It follows an ordered
database query. It applies each child event of the query (added, changed,
removed, moved) to its snapshot list in place. After each change it calls its
change listeners with the kind of change and the indices involved. It
registers itself on the query only while it has at least one change listener.
Its read-only face comes from `ImmutableList`. There, every mutator throws
`UnsupportedOperationException`, and the iterators only move the cursor.

Modules, one per file:

- `Outcomes` (`outcomes.dfy`): the Java exceptions involved, as an `Error`
  datatype with the messages the source uses. It also holds the
  `Option`/`Result`/`Outcome` wrappers that carry a thrown exception out of a
  call.
- `ArrayLists` (`array_lists.dfy`): the `java.util.ArrayList` operations the
  list relies on, as functions on sequences: `add(int, E)`, `remove(int)`,
  `remove(Object)`, `indexOf` and `lastIndexOf`.
- `ChildEvents` (`child_events.dfy`): the effect of each child event on a
  snapshot list, and the change it announces. These are pure functions
  (`ApplyAdded`, `ApplyChanged`, `ApplyRemoved`, `ApplyMoved`). Lemmas about
  them cover key uniqueness and moves, and work through examples: three
  additions in arrival order, an addition after the last child, and a move of
  the first child to the end.
- `ImmutableList` (`immutable_list.dfy`): the always-throwing mutators, and the
  two iterator classes as cursors.
- `Database` (`firebase_array.dfy`): the `FirebaseArray` class. It has the
  snapshot list, both listener lists and the notify switch as fields, and its
  methods update these fields in place. The four child-event handlers
  (`OnChildAdded`, `OnChildChanged`, `OnChildRemoved`, `OnChildMoved`) are
  proved against `ChildEvents.ApplyAdded`, `ApplyChanged`, `ApplyRemoved` and
  `ApplyMoved`. The listener methods are specified through
  `ArrayLists.RemoveFirst` and the class invariant `Valid()`. The notify
  methods are specified through `Notifications` and `Announced`. The read
  methods are specified directly on the snapshot list; `IndexOf` and
  `LastIndexOf` are stated through `Get` and `Contains` and implemented by
  `ArrayLists.IndexOf` and `ArrayLists.LastIndexOf`.

The query and the listeners are code outside this model. A ghost `trace` on
the class stands in for them: it records every callback made on a listener and
every registration call made on the query, in order. The class invariant
`Valid()` states a source promise: the list is registered on the query, for
child and for value events, exactly when it has a change listener.

A thrown exception is a returned `Err`/`Fail`. Its effect on the list is what
was done before the throw. A failed `onChildMoved` leaves the snapshot removed
when the predecessor lookup is the part that throws.

Behaviour of the source worth knowing:

- `onChildMoved` is not atomic. It removes the snapshot
  (FirebaseArray.java:162) before it looks up the predecessor (line 163). So
  when that lookup fails, the snapshot stays removed
  (`ChildEvents.MoveThrowsAfterRemoval`).
- So a move whose predecessor is the child's own key throws and loses the
  child: that key is gone by the time it is looked up
  (`ChildEvents.MoveAfterItselfThrows`). A move after the child's current
  predecessor keeps the order (`ChildEvents.MoveToOwnPlace`).
- The Javadoc of `removeChangeEventListener` (FirebaseArray.java:74-75) says
  the list is empty after the call returns. The code clears the list only
  when the last change listener goes (lines 83-87). Removing one of two
  listeners keeps the snapshots and the registration on the query
  (`Database.RemoveOneOfTwoListeners`). The model follows the code.

## Model

| member | source | states |
|---|---|---|
| Database.CheckNotNull | database/src/main/java/com/firebase/ui/database/FirebaseArray.java:123-125 | a null listener fails with IllegalArgumentException("Listener cannot be null."); any other passes |
| ArrayLists.Insert | database/src/main/java/com/firebase/ui/database/FirebaseArray.java:141 | `add(index, x)`: one longer, with `x` at the index |
| ArrayLists.RemoveInserted | database/src/main/java/com/firebase/ui/database/FirebaseArray.java:162-164 | removing at the index just inserted at gives back the original list, so an insertion keeps every other element in its order |
| ArrayLists.InsertAddsOne | database/src/main/java/com/firebase/ui/database/FirebaseArray.java:141 | an insertion adds exactly `x` to the multiset of elements |
| ArrayLists.RemoveAt | database/src/main/java/com/firebase/ui/database/FirebaseArray.java:155 | `remove(index)`: one shorter |
| ArrayLists.RemoveAtIndex | database/src/main/java/com/firebase/ui/database/FirebaseArray.java:155 | after `remove(index)`, elements before the index keep their place and those after it move one down |
| ArrayLists.RemoveAtDropsOne | database/src/main/java/com/firebase/ui/database/FirebaseArray.java:155 | a removal takes exactly the removed element out of the multiset of elements |
| ArrayLists.ReplaceByRemoveInsert | database/src/main/java/com/firebase/ui/database/FirebaseArray.java:162-164 | removing at an index and inserting there replaces the element, as `set` does |
| ArrayLists.IndexOf | database/src/main/java/com/firebase/ui/database/FirebaseArray.java:289-291 | -1 exactly when absent; otherwise an index holding the element with no earlier occurrence |
| ArrayLists.LastIndexOf | database/src/main/java/com/firebase/ui/database/FirebaseArray.java:294-296 | -1 exactly when absent; otherwise an index holding the element with no later occurrence |
| ArrayLists.RemoveFirst | database/src/main/java/com/firebase/ui/database/FirebaseArray.java:81 | `remove(Object)`: unchanged when absent, one shorter when present |
| ArrayLists.RemoveFirstIsRemoveAt | database/src/main/java/com/firebase/ui/database/FirebaseArray.java:81 | when present, `remove(Object)` removes the element at `indexOf` of it, the first occurrence |
| ChildEvents.KeyIndex | database/src/main/java/com/firebase/ui/database/FirebaseArray.java:178-188 | the first index whose snapshot has the key; fails with IllegalArgumentException("Key not found") exactly when no snapshot has it |
| ChildEvents.InsertionIndex | database/src/main/java/com/firebase/ui/database/FirebaseArray.java:137-139 | 0 without a predecessor; otherwise one past the first holder of the predecessor's key; "Key not found" exactly when the key is absent |
| ChildEvents.ApplyAdded | database/src/main/java/com/firebase/ui/database/FirebaseArray.java:136-143 | the snapshot is inserted right after its predecessor (first without one) and ADDED is announced at that index; an unknown predecessor throws with the list unchanged |
| ChildEvents.ApplyChanged | database/src/main/java/com/firebase/ui/database/FirebaseArray.java:146-150 | the holder of the key is replaced in place; every other element and every key stays; CHANGED is announced at its index; an unknown key throws with the list unchanged |
| ChildEvents.ApplyRemoved | database/src/main/java/com/firebase/ui/database/FirebaseArray.java:153-157 | the holder of the key is deleted and REMOVED is announced at its index; an unknown key throws with the list unchanged |
| ChildEvents.ApplyMoved | database/src/main/java/com/firebase/ui/database/FirebaseArray.java:160-166 | an unknown key throws "Key not found" with the list unchanged; a success reports MOVED and keeps the size |
| ChildEvents.MoveEffect | database/src/main/java/com/firebase/ui/database/FirebaseArray.java:160-166 | for a known key: the snapshot is deleted, then reinserted after its predecessor as found in the shortened list (first without one); MOVED carries the new and old index; it throws exactly when the predecessor is missing from the shortened list, and then leaves the snapshot removed |
| ChildEvents.MoveThrowsAfterRemoval | database/src/main/java/com/firebase/ui/database/FirebaseArray.java:160-166 | a predecessor missing once the snapshot is removed makes the move throw with the snapshot removed |
| ChildEvents.Apply | database/src/main/java/com/firebase/ui/database/FirebaseArray.java:135-166 | each event kind is announced as its own change type |
| ChildEvents.InsertKeepsKeysUnique | database/src/main/java/com/firebase/ui/database/FirebaseArray.java:141 | inserting a snapshot with a new key keeps the keys unique |
| ChildEvents.RemoveKeepsKeysUnique | database/src/main/java/com/firebase/ui/database/FirebaseArray.java:155 | a removal keeps keys unique, and the removed key is gone from the list |
| ChildEvents.EventKeepsKeysUnique | database/src/main/java/com/firebase/ui/database/FirebaseArray.java:135-166 | every event that adds no duplicate key keeps keys unique, whether it succeeds or throws |
| ChildEvents.InsertRemoved | database/src/main/java/com/firebase/ui/database/FirebaseArray.java:162-164 | putting a removed element back at its index restores the list |
| ChildEvents.KeyIndexUnique | database/src/main/java/com/firebase/ui/database/FirebaseArray.java:178-188 | with unique keys, the lookup finds exactly the index holding the key |
| ChildEvents.KeyIndexFirst | database/src/main/java/com/firebase/ui/database/FirebaseArray.java:178-188 | a holder of the key with no earlier holder is what the lookup finds |
| ChildEvents.KeyIndexAfterRemoval | database/src/main/java/com/firebase/ui/database/FirebaseArray.java:160-166 | with unique keys, after a removal another key is found at the same index when it came before the gap, one lower when it came after |
| ChildEvents.MoveAfterItselfThrows | database/src/main/java/com/firebase/ui/database/FirebaseArray.java:160-166 | a move after the snapshot's own key throws "Key not found" and leaves the snapshot removed |
| ChildEvents.MoveToOwnPlace | database/src/main/java/com/firebase/ui/database/FirebaseArray.java:160-166 | a move after the snapshot's current predecessor (or to the front when it is first) keeps its place, takes the new data, and reports MOVED(o, o) |
| ChildEvents.AddAfterLast | database/src/main/java/com/firebase/ui/database/FirebaseArray.java:136-143 | an addition after the last snapshot appends and is announced at the old size |
| ChildEvents.AddInArrivalOrder | database/src/main/java/com/firebase/ui/database/FirebaseArray.java:136-143 | three children, each added after the previous one (the first two with distinct keys), end up as [a, b, c], announced at 0, 1 and 2 |
| ChildEvents.RemoveByKey | database/src/main/java/com/firebase/ui/database/FirebaseArray.java:153-157 | with unique keys, a removal deletes exactly the holder of the key and announces its index |
| ChildEvents.AddAfterKey | database/src/main/java/com/firebase/ui/database/FirebaseArray.java:136-143 | with unique keys, an addition after key `s[p]` lands at p + 1 |
| ChildEvents.MoveAfterOther | database/src/main/java/com/firebase/ui/database/FirebaseArray.java:160-166 | a move after another snapshot at p lands at p + 1 when p came before it, at p otherwise, with the old index reported |
| ChildEvents.MoveFirstToLast | database/src/main/java/com/firebase/ui/database/FirebaseArray.java:160-166 | moving a after c in [a, b, c] gives [b, c, a] and announces MOVED(2, 0) |
| ChildEvents.MovedIsRemovedThenAdded | database/src/main/java/com/firebase/ui/database/FirebaseArray.java:160-166 | a successful move is the removal followed by the addition, with the removal's index as the old index |
| ImmutableList.Mutate | database/src/main/java/com/firebase/ui/database/ImmutableList.java:11-130 | every mutator, whatever its arguments, throws UnsupportedOperationException and leaves the contents unmodified |
| ImmutableList.MutateAll | database/src/main/java/com/firebase/ui/database/ImmutableList.java:11-130 | a series of mutator calls ends with one outcome per call |
| ImmutableList.MutatorsLeaveListUnchanged | database/src/main/java/com/firebase/ui/database/ImmutableList.java:11-130 | after any series of mutator calls, the size and every element are as before, and every call threw |
| ImmutableList.ImmutableIterator.constructor | database/src/main/java/com/firebase/ui/database/ImmutableList.java:135-137 | a new iterator stands before the first element |
| ImmutableList.ImmutableIterator.HasNext | database/src/main/java/com/firebase/ui/database/ImmutableList.java:140-142 | true exactly when an element is left ahead of the cursor |
| ImmutableList.ImmutableIterator.Next | database/src/main/java/com/firebase/ui/database/ImmutableList.java:145-147 | returns the element ahead and steps past it; at the end throws NoSuchElementException and stays |
| ImmutableList.ImmutableIterator.Remove | database/src/main/java/com/firebase/ui/database/ImmutableList.java:132-148 | `remove()` is not overridden, so it always throws UnsupportedOperationException |
| ImmutableList.ImmutableListIterator.constructor | database/src/main/java/com/firebase/ui/database/ImmutableList.java:153-155 | a new iterator stands before the given index |
| ImmutableList.ImmutableListIterator.HasNext | database/src/main/java/com/firebase/ui/database/ImmutableList.java:158-160 | true exactly when the next index is inside the list |
| ImmutableList.ImmutableListIterator.HasPrevious | database/src/main/java/com/firebase/ui/database/ImmutableList.java:168-170 | true exactly when the previous index is not -1 |
| ImmutableList.ImmutableListIterator.NextIndex | database/src/main/java/com/firebase/ui/database/ImmutableList.java:178-180 | at most the size, and one more than the previous index |
| ImmutableList.ImmutableListIterator.PreviousIndex | database/src/main/java/com/firebase/ui/database/ImmutableList.java:183-185 | between -1 and the last index |
| ImmutableList.ImmutableListIterator.Next | database/src/main/java/com/firebase/ui/database/ImmutableList.java:163-165 | returns the element at the next index, and that index becomes the previous index; at the end throws NoSuchElementException |
| ImmutableList.ImmutableListIterator.Previous | database/src/main/java/com/firebase/ui/database/ImmutableList.java:173-175 | returns the element at the previous index, and that index becomes the next index; at the start throws NoSuchElementException |
| ImmutableList.ImmutableListIterator.Remove | database/src/main/java/com/firebase/ui/database/ImmutableList.java:188-190 | always throws UnsupportedOperationException |
| ImmutableList.ImmutableListIterator.Set | database/src/main/java/com/firebase/ui/database/ImmutableList.java:193-195 | always throws UnsupportedOperationException |
| ImmutableList.ImmutableListIterator.Add | database/src/main/java/com/firebase/ui/database/ImmutableList.java:198-200 | always throws UnsupportedOperationException |
| ImmutableList.NextThenPrevious | database/src/main/java/com/firebase/ui/database/ImmutableList.java:162-175 | `next()` then `previous()` return the same element and put the cursor back |
| Database.Notifications | database/src/main/java/com/firebase/ui/database/FirebaseArray.java:202-204 | a notification loop calls each target exactly once, in list order |
| Database.CallbacksKeepAttachment | database/src/main/java/com/firebase/ui/database/FirebaseArray.java:58-89 | callbacks on listeners never change whether the list is registered on the query |
| Database.FirebaseArray.constructor | database/src/main/java/com/firebase/ui/database/FirebaseArray.java:35-48 | a new list is empty, has no listeners, is not registered on the query, and notifies |
| Database.FirebaseArray.AddChangeEventListener | database/src/main/java/com/firebase/ui/database/FirebaseArray.java:58-71 | null is refused with nothing changed; otherwise the listener is appended and returned, every subscriber is told, and the first listener registers the list for child then value events |
| Database.FirebaseArray.RemoveChangeEventListener | database/src/main/java/com/firebase/ui/database/FirebaseArray.java:79-89 | the first registration of the listener goes; every subscriber is told; when none is left the list unregisters value then child events and empties |
| Database.FirebaseArray.AddSubscriptionEventListener | database/src/main/java/com/firebase/ui/database/FirebaseArray.java:98-102 | null is refused with nothing changed; otherwise the listener is appended and returned |
| Database.FirebaseArray.RemoveSubscriptionEventListener | database/src/main/java/com/firebase/ui/database/FirebaseArray.java:109-111 | the first registration of the listener goes; nothing else changes |
| Database.FirebaseArray.IsListening | database/src/main/java/com/firebase/ui/database/FirebaseArray.java:131-133 | true exactly when a change listener is registered, which is exactly when the list is registered on the query for both kinds of events |
| Database.FirebaseArray.Broadcast | database/src/main/java/com/firebase/ui/database/FirebaseArray.java:202-204 | the loop appends one callback per target, in order, to the trace |
| Database.FirebaseArray.NotifySubscriptionEventListeners | database/src/main/java/com/firebase/ui/database/FirebaseArray.java:113-121 | every subscription listener gets the added or removed callback, in order |
| Database.FirebaseArray.SetShouldNotifyListeners | database/src/main/java/com/firebase/ui/database/FirebaseArray.java:190-192 | sets the notify switch |
| Database.FirebaseArray.NotifyChangeEventListeners | database/src/main/java/com/firebase/ui/database/FirebaseArray.java:194-205 | every change listener gets the change, in order, unless notifications are off |
| Database.FirebaseArray.NotifyListenersOnDataChanged | database/src/main/java/com/firebase/ui/database/FirebaseArray.java:207-212 | every change listener gets `onDataChanged`, unless notifications are off |
| Database.FirebaseArray.NotifyListenersOnCancelled | database/src/main/java/com/firebase/ui/database/FirebaseArray.java:214-219 | every change listener gets the error, unless notifications are off |
| Database.FirebaseArray.IndexForKey | database/src/main/java/com/firebase/ui/database/FirebaseArray.java:178-188 | the scan loop returns the first index holding the key, or throws "Key not found" exactly when no snapshot has it |
| Database.FirebaseArray.OnChildAdded | database/src/main/java/com/firebase/ui/database/FirebaseArray.java:136-143 | the list becomes `ApplyAdded` of the old list; listeners hear the change only when it succeeds; listener lists untouched |
| Database.FirebaseArray.OnChildChanged | database/src/main/java/com/firebase/ui/database/FirebaseArray.java:146-150 | the list becomes `ApplyChanged` of the old list; listeners hear the change only when it succeeds |
| Database.FirebaseArray.OnChildRemoved | database/src/main/java/com/firebase/ui/database/FirebaseArray.java:153-157 | the list becomes `ApplyRemoved` of the old list; listeners hear the change only when it succeeds |
| Database.FirebaseArray.OnChildMoved | database/src/main/java/com/firebase/ui/database/FirebaseArray.java:160-166 | the list becomes `ApplyMoved` of the old list, partial removal included; listeners hear the change only when it succeeds |
| Database.FirebaseArray.OnDataChange | database/src/main/java/com/firebase/ui/database/FirebaseArray.java:168-171 | only `onDataChanged` reaches the change listeners; the list is untouched |
| Database.FirebaseArray.OnCancelled | database/src/main/java/com/firebase/ui/database/FirebaseArray.java:173-176 | the error reaches the change listeners; the list is untouched |
| Database.FirebaseArray.Size | database/src/main/java/com/firebase/ui/database/FirebaseArray.java:221-224 | the number of snapshots |
| Database.FirebaseArray.IsEmpty | database/src/main/java/com/firebase/ui/database/FirebaseArray.java:226-229 | true exactly when the size is 0 |
| Database.FirebaseArray.Get | database/src/main/java/com/firebase/ui/database/FirebaseArray.java:283-286 | the snapshot at the index; IndexOutOfBoundsException exactly when the index is outside the list |
| Database.FirebaseArray.Contains | database/src/main/java/com/firebase/ui/database/FirebaseArray.java:231-234 | true exactly when some index holds the snapshot |
| Database.FirebaseArray.ContainsAll | database/src/main/java/com/firebase/ui/database/FirebaseArray.java:278-281 | true exactly when every element of the collection is contained |
| Database.FirebaseArray.IndexOf | database/src/main/java/com/firebase/ui/database/FirebaseArray.java:288-291 | -1 exactly when not contained; otherwise `get` there yields it and at no earlier index |
| Database.FirebaseArray.LastIndexOf | database/src/main/java/com/firebase/ui/database/FirebaseArray.java:293-296 | -1 exactly when not contained; otherwise `get` there yields it and at no later index |
| Database.FirebaseArray.Iterator | database/src/main/java/com/firebase/ui/database/FirebaseArray.java:241-244 | a new read-only iterator over the current snapshots, before the first |
| Database.FirebaseArray.ListIterator | database/src/main/java/com/firebase/ui/database/FirebaseArray.java:303-306 | a new read-only list iterator over the current snapshots at index 0 |
| Database.FirebaseArray.ListIteratorAt | database/src/main/java/com/firebase/ui/database/FirebaseArray.java:313-316 | a new read-only list iterator at the index; IndexOutOfBoundsException exactly when the index is outside 0..size |
| Database.FirebaseArray.Mutator | database/src/main/java/com/firebase/ui/database/ImmutableList.java:10-130 | a mutator inherited from `ImmutableList` throws UnsupportedOperationException, and the snapshots stay |
| Database.RemoveOneOfTwoListeners | database/src/main/java/com/firebase/ui/database/FirebaseArray.java:79-89 | removing one of two change listeners keeps the other, the snapshots and the registration on the query, unlike the Javadoc's promise of an empty list |
| Database.ListenOnce | database/src/main/java/com/firebase/ui/database/FirebaseArray.java:58-89 | adding then removing the only listener registers child and value events, then unregisters value and child events, leaving the list empty and not listening |

## Left out

- The `synchronized` sections and every thread interleaving: the model is sequential.
- `toArray()` and `toArray(T[])`: they copy into Java arrays, which carry no property beyond the list's contents.
- `toObjectsList`: it builds a `FirebaseArrayOfObjects`, and that class is not part of this model.
- `equals`, `hashCode` and `toString` of `FirebaseArray`: they depend on the query's own equality and hashing, which are code outside the model.
- The query itself: its calls appear only as entries of the ghost trace, and what it does with a registration is not modelled.
- Listener callbacks: they appear only as trace entries. A listener that throws, or that re-enters the list during a callback, is not modelled.
- `onDataChange`'s snapshot argument: the source ignores it, so the model takes no argument.
- Listener equality is identity: `ListenerRef` values are equal exactly when they are the same reference. `ArrayList.remove(Object)` (FirebaseArray.java:81, 110) matches by `equals`, which a listener class may override. That is code outside the model.
- `DataSnapshot` is a key plus a payload, compared structurally. Java compares snapshots by their own `equals`, which is code outside the model.
- Java `int` overflow of indices and sizes: lists are assumed shorter than 2^31 elements.
- ImmutableList.ImmutableIterator.constructor: the iterator wraps a live `ArrayList` iterator, and the model makes it a cursor over the list as it stood when the iterator was made. Fail-fast `ConcurrentModificationException` after a later change is not modelled.
- ImmutableList.ImmutableListIterator.constructor: the same simplification as `ImmutableIterator`.
- The `auth` package files: they are not part of the core modelled here.

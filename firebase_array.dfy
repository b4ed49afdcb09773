/**
 * The list of snapshots kept in step with a database query. `FirebaseArray`
 * applies the query's child events to its list in place, announces each
 * change to its change listeners, and attaches itself to the query only while
 * it has at least one change listener.
 */
module Database {
  import opened Outcomes
  import opened ArrayLists
  import opened ChildEvents
  import opened ImmutableList

  /** A Java reference to a listener object; registrations are by reference, duplicates allowed. */
  datatype ListenerRef = ListenerRef(id: nat)

  /** The error the query reports when it is cancelled; the list passes it on untouched. */
  datatype DatabaseError = DatabaseError(code: int, message: string)

  /** A callback made on a listener. */
  datatype Notification =
    | OnChildChanged(change: ChildChange)  // ChangeEventListener.onChildChanged(type, index, oldIndex)
    | OnDataChanged                        // ChangeEventListener.onDataChanged()
    | OnCancelled(error: DatabaseError)    // ChangeEventListener.onCancelled(error)
    | OnSubscriptionAdded                  // SubscriptionEventListener.onSubscriptionAdded()
    | OnSubscriptionRemoved                // SubscriptionEventListener.onSubscriptionRemoved()

  /** A call the list makes on its query, registering or unregistering itself. */
  datatype QueryCall =
    | AddChildEventListener
    | AddValueEventListener
    | RemoveValueEventListener
    | RemoveChildEventListener

  /** One thing the list did to the outside world. */
  datatype Effect = Notify(listener: ListenerRef, notification: Notification) | Query(call: QueryCall)

  /** The callbacks of a notification loop: each target once, in list order. */
  function Notifications(targets: seq<ListenerRef>, n: Notification): (r: seq<Effect>)
    ensures |r| == |targets|
    ensures forall i :: 0 <= i < |targets| ==> r[i] == Notify(targets[i], n)
  {
    if targets == [] then []
    else Notifications(targets[..|targets| - 1], n) + [Notify(targets[|targets| - 1], n)]
  }

  /**
   * Whether the list is registered on the query for one kind of events: the
   * last call on the query that registered or unregistered that kind registered it.
   */
  ghost function Attached(trace: seq<Effect>, add: QueryCall, remove: QueryCall): bool
  {
    if trace == [] then false
    else
      var last := trace[|trace| - 1];
      if last == Query(add) then true
      else if last == Query(remove) then false
      else Attached(trace[..|trace| - 1], add, remove)
  }

  /** Callbacks on listeners do not register or unregister anything on the query. */
  lemma {:induction false} CallbacksKeepAttachment(trace: seq<Effect>, more: seq<Effect>, add: QueryCall, remove: QueryCall)
    requires forall i :: 0 <= i < |more| ==> more[i].Notify?
    ensures Attached(trace + more, add, remove) == Attached(trace, add, remove)
  {
    if more == [] {
      assert trace + more == trace;
    } else {
      var init := more[..|more| - 1];
      assert (trace + more)[..|trace + more| - 1] == trace + init;
      assert (trace + more)[|trace + more| - 1] == more[|more| - 1];
      CallbacksKeepAttachment(trace, init, add, remove);
    }
  }

  /** The callbacks the change listeners get for `n`: one each, or none while notifications are off. */
  function Announced(notify: bool, targets: seq<ListenerRef>, n: Notification): seq<Effect>
  {
    if notify then Notifications(targets, n) else []
  }

  /** `checkNotNull`: a null listener is refused. */
  function CheckNotNull<X>(o: Option<X>): (r: Outcome)
    ensures r.Fail? <==> o.None?
    ensures r.Fail? ==> r.error == IllegalArgument(NULL_LISTENER)
  {
    if o.None? then Fail(IllegalArgument(NULL_LISTENER)) else Pass
  }

  class FirebaseArray<T(==)> {
    /** The snapshots, in query order. */
    var snapshots: seq<Snapshot<T>>
    /** The change listeners, in registration order. */
    var listeners: seq<ListenerRef>
    /** The subscription listeners, in registration order. */
    var subscribers: seq<ListenerRef>
    /** Whether change listeners are called at all. */
    var notifyListeners: bool
    /** Every callback made and every call made on the query, in order. */
    ghost var trace: seq<Effect>

    /** The list is registered on the query, for both kinds of events, exactly while it has a change listener. */
    ghost predicate Valid()
      reads this`trace, this`listeners
    {
      && Attached(trace, AddChildEventListener, RemoveChildEventListener) == (|listeners| > 0)
      && Attached(trace, AddValueEventListener, RemoveValueEventListener) == (|listeners| > 0)
    }

    /** A new list for a query: empty, without listeners, not registered on the query, notifying. */
    constructor ()
      ensures Valid()
      ensures snapshots == [] && listeners == [] && subscribers == []
      ensures notifyListeners && trace == []
    {
      snapshots := [];
      listeners := [];
      subscribers := [];
      notifyListeners := true;
      trace := [];
    }

    /**
     * `addChangeEventListener`: a null listener is refused with nothing
     * changed. Otherwise the listener is appended, every subscription listener
     * hears of it, and the first listener registers the list on the query for
     * child events and then for value events.
     */
    method AddChangeEventListener(listener: Option<ListenerRef>) returns (r: Result<ListenerRef>)
      requires Valid()
      modifies this
      ensures Valid()
      ensures listener.None? ==> r == Err(IllegalArgument(NULL_LISTENER)) && unchanged(this)
      ensures listener.Some? ==>
        && r == Ok(listener.value)
        && listeners == old(listeners) + [listener.value]
        && trace == old(trace) + Notifications(subscribers, OnSubscriptionAdded)
                    + (if old(listeners) == [] then [Query(AddChildEventListener), Query(AddValueEventListener)] else [])
      ensures snapshots == old(snapshots) && subscribers == old(subscribers)
      ensures notifyListeners == old(notifyListeners)
    {
      var checked := CheckNotNull(listener);
      if checked.Fail? {
        return Err(checked.error);
      }
      listeners := listeners + [listener.value];
      NotifySubscriptionEventListeners(OnSubscriptionAdded);
      CallbacksKeepAttachment(old(trace), Notifications(subscribers, OnSubscriptionAdded), AddChildEventListener, RemoveChildEventListener);
      CallbacksKeepAttachment(old(trace), Notifications(subscribers, OnSubscriptionAdded), AddValueEventListener, RemoveValueEventListener);
      if |listeners| == 1 {
        trace := trace + [Query(AddChildEventListener)];
        trace := trace + [Query(AddValueEventListener)];
      }
      r := Ok(listener.value);
    }

    /**
     * `removeChangeEventListener`: the first registration of the listener is
     * dropped, if there is one; every subscription listener hears of the call
     * regardless; when no change listener is left, the list unregisters from
     * the query for value and then child events and empties itself.
     */
    method RemoveChangeEventListener(listener: Option<ListenerRef>)
      requires Valid()
      modifies this
      ensures Valid()
      ensures listeners == match listener
        case None => old(listeners)
        case Some(l) => RemoveFirst(old(listeners), l)
      ensures trace == old(trace) + Notifications(subscribers, OnSubscriptionRemoved)
                       + (if listeners == [] then [Query(RemoveValueEventListener), Query(RemoveChildEventListener)] else [])
      ensures snapshots == if listeners == [] then [] else old(snapshots)
      ensures subscribers == old(subscribers) && notifyListeners == old(notifyListeners)
    {
      if listener.Some? {
        listeners := RemoveFirst(listeners, listener.value);
      }
      NotifySubscriptionEventListeners(OnSubscriptionRemoved);
      CallbacksKeepAttachment(old(trace), Notifications(subscribers, OnSubscriptionRemoved), AddChildEventListener, RemoveChildEventListener);
      CallbacksKeepAttachment(old(trace), Notifications(subscribers, OnSubscriptionRemoved), AddValueEventListener, RemoveValueEventListener);
      if listeners == [] {
        trace := trace + [Query(RemoveValueEventListener)];
        trace := trace + [Query(RemoveChildEventListener)];
        snapshots := [];
      }
    }

    /** `addSubscriptionEventListener`: a null listener is refused with nothing changed; otherwise it is appended. */
    method AddSubscriptionEventListener(listener: Option<ListenerRef>) returns (r: Result<ListenerRef>)
      requires Valid()
      modifies this
      ensures Valid()
      ensures listener.None? ==> r == Err(IllegalArgument(NULL_LISTENER)) && unchanged(this)
      ensures listener.Some? ==> r == Ok(listener.value) && subscribers == old(subscribers) + [listener.value]
      ensures snapshots == old(snapshots) && listeners == old(listeners) && trace == old(trace)
      ensures notifyListeners == old(notifyListeners)
    {
      var checked := CheckNotNull(listener);
      if checked.Fail? {
        return Err(checked.error);
      }
      subscribers := subscribers + [listener.value];
      r := Ok(listener.value);
    }

    /** `removeSubscriptionEventListener`: the first registration of the listener is dropped, if there is one. */
    method RemoveSubscriptionEventListener(listener: Option<ListenerRef>)
      requires Valid()
      modifies this
      ensures Valid()
      ensures subscribers == match listener
        case None => old(subscribers)
        case Some(l) => RemoveFirst(old(subscribers), l)
      ensures snapshots == old(snapshots) && listeners == old(listeners) && trace == old(trace)
      ensures notifyListeners == old(notifyListeners)
    {
      if listener.Some? {
        subscribers := RemoveFirst(subscribers, listener.value);
      }
    }

    /** `isListening`: the list has a change listener, which is exactly when it is registered on the query. */
    function IsListening(): (b: bool)
      reads this
      requires Valid()
      ensures b <==> |listeners| > 0
      ensures b == Attached(trace, AddChildEventListener, RemoveChildEventListener)
      ensures b == Attached(trace, AddValueEventListener, RemoveValueEventListener)
    {
      listeners != []
    }

    /** The loop of the notify methods: one callback on each target, in list order. */
    method Broadcast(targets: seq<ListenerRef>, n: Notification)
      modifies this`trace
      ensures trace == old(trace) + Notifications(targets, n)
    {
      for i := 0 to |targets|
        invariant trace == old(trace) + Notifications(targets[..i], n)
      {
        assert targets[..i + 1][..i] == targets[..i];
        trace := trace + [Notify(targets[i], n)];
      }
      assert targets[..|targets|] == targets;
    }

    /** `notifySubscriptionEventListeners`: tell every subscription listener of an added or removed change listener. */
    method NotifySubscriptionEventListeners(n: Notification)
      requires n == OnSubscriptionAdded || n == OnSubscriptionRemoved
      modifies this`trace
      ensures trace == old(trace) + Notifications(subscribers, n)
    {
      Broadcast(subscribers, n);
    }

    /** `setShouldNotifyListeners`: switch the calls on change listeners on or off. */
    method SetShouldNotifyListeners(notify: bool)
      requires Valid()
      modifies this`notifyListeners
      ensures Valid() && notifyListeners == notify
    {
      notifyListeners := notify;
    }

    /** `notifyChangeEventListeners`: call every change listener with the change, unless notifications are off. */
    method NotifyChangeEventListeners(change: ChildChange)
      requires Valid()
      modifies this`trace
      ensures Valid()
      ensures trace == old(trace) + Announced(notifyListeners, listeners, Notification.OnChildChanged(change))
    {
      if notifyListeners {
        Broadcast(listeners, Notification.OnChildChanged(change));
        CallbacksKeepAttachment(old(trace), Notifications(listeners, Notification.OnChildChanged(change)), AddChildEventListener, RemoveChildEventListener);
        CallbacksKeepAttachment(old(trace), Notifications(listeners, Notification.OnChildChanged(change)), AddValueEventListener, RemoveValueEventListener);
      }
    }

    /** `notifyListenersOnDataChanged`: call every change listener's `onDataChanged`, unless notifications are off. */
    method NotifyListenersOnDataChanged()
      requires Valid()
      modifies this`trace
      ensures Valid()
      ensures trace == old(trace) + Announced(notifyListeners, listeners, OnDataChanged)
    {
      if notifyListeners {
        Broadcast(listeners, OnDataChanged);
        CallbacksKeepAttachment(old(trace), Notifications(listeners, OnDataChanged), AddChildEventListener, RemoveChildEventListener);
        CallbacksKeepAttachment(old(trace), Notifications(listeners, OnDataChanged), AddValueEventListener, RemoveValueEventListener);
      }
    }

    /** `notifyListenersOnCancelled`: pass the error to every change listener, unless notifications are off. */
    method NotifyListenersOnCancelled(error: DatabaseError)
      requires Valid()
      modifies this`trace
      ensures Valid()
      ensures trace == old(trace) + Announced(notifyListeners, listeners, Notification.OnCancelled(error))
    {
      if notifyListeners {
        Broadcast(listeners, Notification.OnCancelled(error));
        CallbacksKeepAttachment(old(trace), Notifications(listeners, Notification.OnCancelled(error)), AddChildEventListener, RemoveChildEventListener);
        CallbacksKeepAttachment(old(trace), Notifications(listeners, Notification.OnCancelled(error)), AddValueEventListener, RemoveValueEventListener);
      }
    }

    /**
     * `getIndexForKey`: scan the list from the front for the key; the first
     * index holding it, or IllegalArgumentException("Key not found").
     */
    method IndexForKey(key: string) returns (r: Result<nat>)
      ensures r == KeyIndex(snapshots, key)
      ensures r.Ok? ==> r.value < |snapshots| && snapshots[r.value].key == key
      ensures r.Err? <==> key !in Keys(snapshots)
    {
      var index := 0;
      while index < |snapshots|
        invariant index <= |snapshots|
        invariant forall j :: 0 <= j < index ==> snapshots[j].key != key
      {
        if snapshots[index].key == key {
          KeyIndexFirst(snapshots, key, index);
          return Ok(index);
        }
        index := index + 1;
      }
      assert forall j :: 0 <= j < |snapshots| ==> Keys(snapshots)[j] != key;
      return Err(IllegalArgument(KEY_NOT_FOUND));
    }

    /** `onChildAdded`: insert the snapshot after its predecessor, then announce ADDED at its index. */
    method OnChildAdded(snapshot: Snapshot<T>, previousChildKey: Option<string>) returns (r: Outcome)
      requires Valid()
      modifies this
      ensures Valid()
      ensures var step := ApplyAdded(old(snapshots), snapshot, previousChildKey);
        && snapshots == step.store
        && (step.change.Err? ==> r == Fail(step.change.error) && trace == old(trace))
        && (step.change.Ok? ==> r == Pass && trace == old(trace) + Announced(notifyListeners, listeners, Notification.OnChildChanged(step.change.value)))
      ensures listeners == old(listeners) && subscribers == old(subscribers) && notifyListeners == old(notifyListeners)
    {
      var index := 0;
      if previousChildKey.Some? {
        var found := IndexForKey(previousChildKey.value);
        if found.Err? {
          return Fail(found.error);
        }
        index := found.value + 1;
      }
      snapshots := Insert(snapshots, index, snapshot);
      NotifyChangeEventListeners(ChildChange(Added, index, -1));
      r := Pass;
    }

    /** `onChildChanged`: replace the snapshot holding the key, then announce CHANGED at its index. */
    method OnChildChanged(snapshot: Snapshot<T>, previousChildKey: Option<string>) returns (r: Outcome)
      requires Valid()
      modifies this
      ensures Valid()
      ensures var step := ApplyChanged(old(snapshots), snapshot);
        && snapshots == step.store
        && (step.change.Err? ==> r == Fail(step.change.error) && trace == old(trace))
        && (step.change.Ok? ==> r == Pass && trace == old(trace) + Announced(notifyListeners, listeners, Notification.OnChildChanged(step.change.value)))
      ensures listeners == old(listeners) && subscribers == old(subscribers) && notifyListeners == old(notifyListeners)
    {
      var found := IndexForKey(snapshot.key);
      if found.Err? {
        return Fail(found.error);
      }
      var index := found.value;
      snapshots := snapshots[index := snapshot];
      NotifyChangeEventListeners(ChildChange(Changed, index, -1));
      r := Pass;
    }

    /** `onChildRemoved`: delete the snapshot holding the key, then announce REMOVED at its index. */
    method OnChildRemoved(snapshot: Snapshot<T>) returns (r: Outcome)
      requires Valid()
      modifies this
      ensures Valid()
      ensures var step := ApplyRemoved(old(snapshots), snapshot);
        && snapshots == step.store
        && (step.change.Err? ==> r == Fail(step.change.error) && trace == old(trace))
        && (step.change.Ok? ==> r == Pass && trace == old(trace) + Announced(notifyListeners, listeners, Notification.OnChildChanged(step.change.value)))
      ensures listeners == old(listeners) && subscribers == old(subscribers) && notifyListeners == old(notifyListeners)
    {
      var found := IndexForKey(snapshot.key);
      if found.Err? {
        return Fail(found.error);
      }
      var index := found.value;
      snapshots := ArrayLists.RemoveAt(snapshots, index);
      NotifyChangeEventListeners(ChildChange(Removed, index, -1));
      r := Pass;
    }

    /**
     * `onChildMoved`: delete the snapshot holding the key, look its
     * predecessor up in the shortened list, insert it there, then announce
     * MOVED with both indices. A missing predecessor throws after the deletion.
     */
    method OnChildMoved(snapshot: Snapshot<T>, previousChildKey: Option<string>) returns (r: Outcome)
      requires Valid()
      modifies this
      ensures Valid()
      ensures var step := ApplyMoved(old(snapshots), snapshot, previousChildKey);
        && snapshots == step.store
        && (step.change.Err? ==> r == Fail(step.change.error) && trace == old(trace))
        && (step.change.Ok? ==> r == Pass && trace == old(trace) + Announced(notifyListeners, listeners, Notification.OnChildChanged(step.change.value)))
      ensures listeners == old(listeners) && subscribers == old(subscribers) && notifyListeners == old(notifyListeners)
    {
      var s := snapshots;
      var found := IndexForKey(snapshot.key);
      if found.Err? {
        return Fail(found.error);
      }
      var oldIndex := found.value;
      var rest := ArrayLists.RemoveAt(s, oldIndex);
      snapshots := rest;
      var newIndex := 0;
      if previousChildKey.Some? {
        var previous := IndexForKey(previousChildKey.value);
        if previous.Err? {
          MoveThrowsAfterRemoval(s, snapshot, previousChildKey, oldIndex);
          return Fail(previous.error);
        }
        newIndex := previous.value + 1;
      }
      MovedIsRemovedThenAdded(s, snapshot, previousChildKey, oldIndex, newIndex);
      snapshots := Insert(rest, newIndex, snapshot);
      NotifyChangeEventListeners(ChildChange(Moved, newIndex, oldIndex));
      r := Pass;
    }

    /** `onDataChange`: the whole-collection event only reaches the change listeners as `onDataChanged`. */
    method OnDataChange()
      requires Valid()
      modifies this
      ensures Valid()
      ensures trace == old(trace) + Announced(notifyListeners, listeners, OnDataChanged)
      ensures snapshots == old(snapshots) && listeners == old(listeners) && subscribers == old(subscribers)
      ensures notifyListeners == old(notifyListeners)
    {
      NotifyListenersOnDataChanged();
    }

    /** `onCancelled`: the query's error is passed on to the change listeners. */
    method OnCancelled(error: DatabaseError)
      requires Valid()
      modifies this
      ensures Valid()
      ensures trace == old(trace) + Announced(notifyListeners, listeners, Notification.OnCancelled(error))
      ensures snapshots == old(snapshots) && listeners == old(listeners) && subscribers == old(subscribers)
      ensures notifyListeners == old(notifyListeners)
    {
      NotifyListenersOnCancelled(error);
    }

    /** `size`. */
    function Size(): (n: nat)
      reads this
      ensures n == |snapshots|
    {
      |snapshots|
    }

    /** `isEmpty`. */
    function IsEmpty(): (b: bool)
      reads this
      ensures b <==> Size() == 0
    {
      snapshots == []
    }

    /** `get(index)`: the snapshot at the index, or IndexOutOfBoundsException. */
    function Get(index: int): (r: Result<Snapshot<T>>)
      reads this
      ensures r.Err? <==> !(0 <= index < Size())
      ensures r.Err? ==> r.error == IndexOutOfBounds
      ensures r.Ok? ==> r.value == snapshots[index]
    {
      if 0 <= index < |snapshots| then Ok(snapshots[index]) else Err(IndexOutOfBounds)
    }

    /** `contains(o)`. */
    function Contains(o: Snapshot<T>): (b: bool)
      reads this
      ensures b <==> exists i :: 0 <= i < Size() && snapshots[i] == o
    {
      o in snapshots
    }

    /** `containsAll(c)`: every element of `c` is in the list. */
    function ContainsAll(c: seq<Snapshot<T>>): (b: bool)
      reads this
      ensures b <==> forall x :: x in c ==> Contains(x)
    {
      forall x :: x in c ==> x in snapshots
    }

    /** `indexOf(o)`: the first index holding `o`, or -1. */
    function IndexOf(o: Snapshot<T>): (i: int)
      reads this
      ensures i == -1 <==> !Contains(o)
      ensures i != -1 ==> Get(i) == Ok(o) && forall j :: 0 <= j < i ==> Get(j) != Ok(o)
    {
      ArrayLists.IndexOf(snapshots, o)
    }

    /** `lastIndexOf(o)`: the last index holding `o`, or -1. */
    function LastIndexOf(o: Snapshot<T>): (i: int)
      reads this
      ensures i == -1 <==> !Contains(o)
      ensures i != -1 ==> Get(i) == Ok(o) && forall j :: i < j < Size() ==> Get(j) != Ok(o)
    {
      ArrayLists.LastIndexOf(snapshots, o)
    }

    /** `iterator()`: a read-only iterator from the first snapshot. */
    method Iterator() returns (it: ImmutableIterator<Snapshot<T>>)
      ensures fresh(it) && it.Valid() && it.elements == snapshots && it.cursor == 0
    {
      it := new ImmutableIterator(snapshots);
    }

    /** `listIterator()`: a read-only list iterator before the first snapshot. */
    method ListIterator() returns (it: ImmutableListIterator<Snapshot<T>>)
      ensures fresh(it) && it.Valid() && it.elements == snapshots && it.NextIndex() == 0
    {
      it := new ImmutableListIterator(snapshots, 0);
    }

    /** `listIterator(index)`: a read-only list iterator before the index, or IndexOutOfBoundsException. */
    method ListIteratorAt(index: int) returns (r: Result<ImmutableListIterator<Snapshot<T>>>)
      ensures r.Err? <==> !(0 <= index <= Size())
      ensures r.Err? ==> r.error == IndexOutOfBounds
      ensures r.Ok? ==> fresh(r.value) && r.value.Valid() && r.value.elements == snapshots && r.value.NextIndex() == index
    {
      if !(0 <= index <= |snapshots|) {
        return Err(IndexOutOfBounds);
      }
      var it := new ImmutableListIterator(snapshots, index);
      r := Ok(it);
    }

    /** A mutator called on the list: it throws and the snapshots stay as they are. */
    method Mutator(m: Mutation<Snapshot<T>>) returns (r: Outcome)
      ensures r == Fail(UnsupportedOperation)
      ensures snapshots == old(snapshots)
    {
      r := Mutate(snapshots, m).outcome;
    }
  }

  /**
   * Removing one of two change listeners does not empty the list: the other
   * listener stays, so the snapshots and the registration on the query stay too.
   */
  method RemoveOneOfTwoListeners<T(==)>(a: FirebaseArray<T>, first: ListenerRef, second: ListenerRef)
    requires a.Valid() && a.listeners == [first, second]
    modifies a
    ensures a.Valid() && a.IsListening()
    ensures a.listeners == [second] && a.snapshots == old(a.snapshots)
  {
    assert RemoveFirst([first, second], first) == [second] by {
      assert [first, second][1..] == [second];
    }
    a.RemoveChangeEventListener(Some(first));
  }

  /**
   * The first change listener attaches a new list to its query and removing
   * it detaches the list again: the query sees the two registrations and then
   * the two unregistrations, and the list is left empty and not listening.
   */
  method ListenOnce<T(==)>(l: ListenerRef) returns (a: FirebaseArray<T>)
    ensures a.Valid() && !a.IsListening() && a.Size() == 0
    ensures a.trace == [Query(AddChildEventListener), Query(AddValueEventListener),
                        Query(RemoveValueEventListener), Query(RemoveChildEventListener)]
  {
    a := new FirebaseArray();
    var added := a.AddChangeEventListener(Some(l));
    assert a.listeners == [l];
    a.RemoveChangeEventListener(Some(l));
  }
}

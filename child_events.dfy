/**
 * What each child event of an ordered query does to the local list of
 * snapshots, as functions on sequences: the effect `FirebaseArray` applies in
 * place, and the change it then announces to its listeners.
 */
module ChildEvents {
  import opened Outcomes
  import opened ArrayLists

  /** A child of the watched location: its key and the data stored under it. */
  datatype Snapshot<T> = Snapshot(key: string, payload: T)

  /** The kind of a change announced to change listeners. */
  datatype EventType = Added | Changed | Removed | Moved

  /** A change announcement: its kind, the index it happened at and, for a move, where it came from (-1 otherwise). */
  datatype ChildChange = ChildChange(kind: EventType, index: int, oldIndex: int)

  /** The list after an event, and the change announced or the exception thrown. */
  datatype Step<T> = Step(store: seq<Snapshot<T>>, change: Result<ChildChange>)

  /** The keys of a list of snapshots, in list order. */
  function Keys<T>(s: seq<Snapshot<T>>): (ks: seq<string>)
    ensures |ks| == |s|
    ensures forall i :: 0 <= i < |s| ==> ks[i] == s[i].key
  {
    seq(|s|, i requires 0 <= i < |s| => s[i].key)
  }

  /** No two snapshots of the list share a key. */
  ghost predicate UniqueKeys<T>(s: seq<Snapshot<T>>) {
    forall i, j :: 0 <= i < j < |s| ==> s[i].key != s[j].key
  }

  /** The lookup of `getIndexForKey`: the first index holding `key`, or "Key not found". */
  function KeyIndex<T>(s: seq<Snapshot<T>>, key: string): (r: Result<nat>)
    ensures r.Ok? ==> r.value < |s| && s[r.value].key == key
    ensures r.Ok? ==> forall j :: 0 <= j < r.value ==> s[j].key != key
    ensures r.Err? <==> key !in Keys(s)
    ensures r.Err? ==> r.error == IllegalArgument(KEY_NOT_FOUND)
  {
    if s == [] then Err(IllegalArgument(KEY_NOT_FOUND))
    else if s[0].key == key then Ok(0)
    else match KeyIndex(s[1..], key)
      case Ok(i) => Ok(i + 1)
      case Err(e) =>
        assert forall j :: 0 < j < |s| ==> s[j].key == s[1..][j - 1].key;
        Err(e)
  }

  /** Where a child goes: first when it has no predecessor, else right after the first holder of its predecessor's key. */
  function InsertionIndex<T>(s: seq<Snapshot<T>>, previousChildKey: Option<string>): (r: Result<nat>)
    ensures r.Err? <==> previousChildKey.Some? && previousChildKey.value !in Keys(s)
    ensures r.Err? ==> r.error == IllegalArgument(KEY_NOT_FOUND)
    ensures r.Ok? ==> r.value <= |s|
    ensures r.Ok? && previousChildKey.None? ==> r.value == 0
    ensures r.Ok? && previousChildKey.Some? ==>
      && 0 < r.value
      && s[r.value - 1].key == previousChildKey.value
      && forall j :: 0 <= j < r.value - 1 ==> s[j].key != previousChildKey.value
  {
    match previousChildKey
    case None => Ok(0)
    case Some(k) =>
      match KeyIndex(s, k)
      case Ok(i) => Ok(i + 1)
      case Err(e) => Err(e)
  }

  /** `onChildAdded`: insert the snapshot after its predecessor; nothing is removed. */
  function ApplyAdded<T>(s: seq<Snapshot<T>>, snapshot: Snapshot<T>, previousChildKey: Option<string>): (r: Step<T>)
    ensures r.change.Err? <==> previousChildKey.Some? && previousChildKey.value !in Keys(s)
    ensures r.change.Err? ==> r.store == s && r.change.error == IllegalArgument(KEY_NOT_FOUND)
    ensures r.change.Ok? ==>
      var i := r.change.value.index;
      && r.change.value == ChildChange(Added, i, -1)
      && 0 <= i <= |s|
      && r.store == Insert(s, i, snapshot)
      && (previousChildKey.None? ==> i == 0)
      && (previousChildKey.Some? ==> 0 < i && KeyIndex(s, previousChildKey.value) == Ok(i - 1))
  {
    match InsertionIndex(s, previousChildKey)
    case Err(e) => Step(s, Err(e))
    case Ok(i) => Step(Insert(s, i, snapshot), Ok(ChildChange(Added, i, -1)))
  }

  /** `onChildChanged`: replace the first snapshot holding the same key; positions and keys stay. */
  function ApplyChanged<T>(s: seq<Snapshot<T>>, snapshot: Snapshot<T>): (r: Step<T>)
    ensures r.change.Err? <==> snapshot.key !in Keys(s)
    ensures r.change.Err? ==> r.store == s && r.change.error == IllegalArgument(KEY_NOT_FOUND)
    ensures r.change.Ok? ==>
      var i := r.change.value.index;
      && r.change.value == ChildChange(Changed, i, -1)
      && KeyIndex(s, snapshot.key) == Ok(i)
      && |r.store| == |s| && r.store[i] == snapshot
      && (forall j :: 0 <= j < |s| && j != i ==> r.store[j] == s[j])
      && Keys(r.store) == Keys(s)
  {
    match KeyIndex(s, snapshot.key)
    case Err(e) => Step(s, Err(e))
    case Ok(i) => Step(s[i := snapshot], Ok(ChildChange(Changed, i, -1)))
  }

  /** `onChildRemoved`: delete the first snapshot holding the key; the others keep their order. */
  function ApplyRemoved<T>(s: seq<Snapshot<T>>, snapshot: Snapshot<T>): (r: Step<T>)
    ensures r.change.Err? <==> snapshot.key !in Keys(s)
    ensures r.change.Err? ==> r.store == s && r.change.error == IllegalArgument(KEY_NOT_FOUND)
    ensures r.change.Ok? ==>
      var i := r.change.value.index;
      && r.change.value == ChildChange(Removed, i, -1)
      && KeyIndex(s, snapshot.key) == Ok(i)
      && r.store == RemoveAt(s, i)
  {
    match KeyIndex(s, snapshot.key)
    case Err(e) => Step(s, Err(e))
    case Ok(i) => Step(RemoveAt(s, i), Ok(ChildChange(Removed, i, -1)))
  }

  /**
   * `onChildMoved`: remove the snapshot from where it was, then insert it after
   * its predecessor as found in the shortened list. When the predecessor's key
   * is missing from the shortened list, the exception leaves the snapshot
   * removed. `MoveEffect` states the whole effect.
   */
  function ApplyMoved<T>(s: seq<Snapshot<T>>, snapshot: Snapshot<T>, previousChildKey: Option<string>): (r: Step<T>)
    ensures snapshot.key !in Keys(s) ==> r == Step(s, Err(IllegalArgument(KEY_NOT_FOUND)))
    ensures r.change.Err? ==> r.change.error == IllegalArgument(KEY_NOT_FOUND)
    ensures r.change.Ok? ==> r.change.value.kind == Moved && |r.store| == |s|
  {
    var removed := ApplyRemoved(s, snapshot);
    match removed.change
    case Err(_) => removed
    case Ok(gone) =>
      var added := ApplyAdded(removed.store, snapshot, previousChildKey);
      match added.change
      case Err(_) => added
      case Ok(put) => Step(added.store, Ok(ChildChange(Moved, put.index, gone.index)))
  }

  /**
   * The effect of a move on a list holding the key at `o`: it throws exactly
   * when the predecessor's key is missing once the snapshot is removed, and
   * then leaves it removed; otherwise the snapshot sits at the new index
   * after its predecessor, and taking it out again gives the shortened list.
   */
  lemma MoveEffect<T>(s: seq<Snapshot<T>>, snapshot: Snapshot<T>, previousChildKey: Option<string>)
    requires snapshot.key in Keys(s)
    ensures var r := ApplyMoved(s, snapshot, previousChildKey);
      var o := KeyIndex(s, snapshot.key).value;
      var rest := RemoveAt(s, o);
      && (r.change.Err? <==> previousChildKey.Some? && previousChildKey.value !in Keys(rest))
      && (r.change.Err? ==> r.store == rest)
      && (r.change.Ok? ==>
            var n := r.change.value.index;
            && r.change.value == ChildChange(Moved, n, o)
            && 0 <= n < |s| && r.store[n] == snapshot
            && RemoveAt(r.store, n) == rest
            && (previousChildKey.None? ==> n == 0)
            && (previousChildKey.Some? ==> 0 < n && KeyIndex(rest, previousChildKey.value) == Ok(n - 1)))
  {
    var r := ApplyMoved(s, snapshot, previousChildKey);
    var rest := RemoveAt(s, KeyIndex(s, snapshot.key).value);
    if r.change.Ok? {
      RemoveInserted(rest, r.change.value.index, snapshot);
    }
  }

  /** A move whose predecessor is missing from the shortened list throws and leaves the snapshot removed. */
  lemma MoveThrowsAfterRemoval<T>(s: seq<Snapshot<T>>, snapshot: Snapshot<T>, previousChildKey: Option<string>, o: nat)
    requires KeyIndex(s, snapshot.key) == Ok(o)
    requires previousChildKey.Some? && previousChildKey.value !in Keys(RemoveAt(s, o))
    ensures ApplyMoved(s, snapshot, previousChildKey) == Step(RemoveAt(s, o), Err(IllegalArgument(KEY_NOT_FOUND)))
  {
    assert ApplyRemoved(s, snapshot).store == RemoveAt(s, o);
  }

  /** A child event as the query delivers it; a missing predecessor key is `None`. */
  datatype ChildEvent<T> =
    | ChildAdded(snapshot: Snapshot<T>, previousChildKey: Option<string>)
    | ChildChanged(snapshot: Snapshot<T>)
    | ChildRemoved(snapshot: Snapshot<T>)
    | ChildMoved(snapshot: Snapshot<T>, previousChildKey: Option<string>)

  /** The effect of one child event, dispatched as `FirebaseArray` dispatches it. */
  function Apply<T>(s: seq<Snapshot<T>>, e: ChildEvent<T>): (r: Step<T>)
    ensures r.change.Ok? ==> r.change.value.kind == match e
      case ChildAdded(_, _) => Added
      case ChildChanged(_) => Changed
      case ChildRemoved(_) => Removed
      case ChildMoved(_, _) => Moved
  {
    match e
    case ChildAdded(x, k) => ApplyAdded(s, x, k)
    case ChildChanged(x) => ApplyChanged(s, x)
    case ChildRemoved(x) => ApplyRemoved(s, x)
    case ChildMoved(x, k) => ApplyMoved(s, x, k)
  }

  /**
   * An event the query may legitimately send: an added child brings a key the
   * list does not hold yet.
   */
  ghost predicate Fresh<T>(s: seq<Snapshot<T>>, e: ChildEvent<T>) {
    e.ChildAdded? ==> e.snapshot.key !in Keys(s)
  }

  /** Inserting a snapshot whose key is new keeps the keys unique. */
  lemma InsertKeepsKeysUnique<T>(s: seq<Snapshot<T>>, i: nat, x: Snapshot<T>)
    requires UniqueKeys(s) && i <= |s| && x.key !in Keys(s)
    ensures UniqueKeys(Insert(s, i, x))
  {
    var t := Insert(s, i, x);
    forall a, b | 0 <= a < b < |t| ensures t[a].key != t[b].key {
      var sa := if a < i then a else a - 1;
      var sb := if b < i then b else b - 1;
      if a != i && b != i {
        assert t[a] == s[sa] && t[b] == s[sb] by {
          if a < i { assert t[..i][a] == s[..i][a]; } else { assert t[i + 1..][a - i - 1] == s[i..][a - i - 1]; }
          if b < i { assert t[..i][b] == s[..i][b]; } else { assert t[i + 1..][b - i - 1] == s[i..][b - i - 1]; }
        }
      } else if a == i {
        assert t[i + 1..][b - i - 1] == s[i..][b - i - 1];
        assert Keys(s)[sb] == t[b].key;
      } else {
        assert t[..i][a] == s[..i][a];
        assert Keys(s)[a] == t[a].key;
      }
    }
  }

  /** Removing a snapshot keeps the keys unique, and its key leaves the list. */
  lemma RemoveKeepsKeysUnique<T>(s: seq<Snapshot<T>>, i: nat)
    requires UniqueKeys(s) && i < |s|
    ensures UniqueKeys(RemoveAt(s, i))
    ensures s[i].key !in Keys(RemoveAt(s, i))
  {
    var t := RemoveAt(s, i);
    assert forall a :: 0 <= a < |t| ==> t[a] == s[if a < i then a else a + 1] by {
      forall a | 0 <= a < |t| ensures t[a] == s[if a < i then a else a + 1] {
        if a < i { assert t[..i][a] == s[..i][a]; } else { assert t[i..][a - i] == s[i + 1..][a - i]; }
      }
    }
  }

  /** Every event the query may legitimately send keeps the keys of the list unique, thrown or not. */
  lemma {:induction false} EventKeepsKeysUnique<T>(s: seq<Snapshot<T>>, e: ChildEvent<T>)
    requires UniqueKeys(s) && Fresh(s, e)
    ensures UniqueKeys(Apply(s, e).store)
  {
    var r := Apply(s, e);
    match e
    case ChildAdded(x, k) =>
      if r.change.Ok? { InsertKeepsKeysUnique(s, r.change.value.index, x); }
    case ChildChanged(x) =>
      if r.change.Ok? {
        forall a, b | 0 <= a < b < |r.store| ensures r.store[a].key != r.store[b].key {
          assert Keys(r.store)[a] == Keys(s)[a] && Keys(r.store)[b] == Keys(s)[b];
        }
      }
    case ChildRemoved(x) =>
      if r.change.Ok? { RemoveKeepsKeysUnique(s, r.change.value.index); }
    case ChildMoved(x, k) =>
      if x.key in Keys(s) {
        var o := KeyIndex(s, x.key).value;
        RemoveKeepsKeysUnique(s, o);
        MoveEffect(s, x, k);
        if r.change.Ok? {
          var rest := RemoveAt(s, o);
          assert r.store == Insert(rest, r.change.value.index, x) by {
            RemoveInserted(rest, r.change.value.index, x);
            assert RemoveAt(r.store, r.change.value.index) == rest;
            InsertRemoved(r.store, r.change.value.index);
          }
          InsertKeepsKeysUnique(rest, r.change.value.index, x);
        }
      }
  }

  /** Putting back what was removed from a place restores the list. */
  lemma InsertRemoved<X>(s: seq<X>, i: nat)
    requires i < |s|
    ensures Insert(RemoveAt(s, i), i, s[i]) == s
  {
    var t := RemoveAt(s, i);
    assert s == s[..i] + [s[i]] + s[i + 1..];
  }

  /** With unique keys, the lookup finds the one place holding the key. */
  lemma {:induction false} KeyIndexUnique<T>(s: seq<Snapshot<T>>, i: nat)
    requires UniqueKeys(s) && i < |s|
    ensures KeyIndex(s, s[i].key) == Ok(i)
  {
    if i > 0 {
      var tail := s[1..];
      assert s[0].key != s[i].key;
      assert UniqueKeys(tail) by {
        forall a, b | 0 <= a < b < |tail| ensures tail[a].key != tail[b].key {
          assert tail[a] == s[a + 1] && tail[b] == s[b + 1];
        }
      }
      assert tail[i - 1] == s[i];
      KeyIndexUnique(tail, i - 1);
    }
  }

  /** The lookup finds a snapshot holding the key when no earlier snapshot holds it. */
  lemma {:induction false} KeyIndexFirst<T>(s: seq<Snapshot<T>>, key: string, i: nat)
    requires i < |s| && s[i].key == key
    requires forall j :: 0 <= j < i ==> s[j].key != key
    ensures KeyIndex(s, key) == Ok(i)
  {
    if i > 0 {
      var tail := s[1..];
      assert s[0].key != key;
      assert tail[i - 1] == s[i];
      assert forall j :: 0 <= j < i - 1 ==> tail[j].key != key by {
        forall j | 0 <= j < i - 1 ensures tail[j].key != key {
          assert tail[j] == s[j + 1];
        }
      }
      KeyIndexFirst(tail, key, i - 1);
    }
  }

  /**
   * A snapshot moved after its own key: the move removes it first, so the
   * lookup of the predecessor fails, and the exception leaves it removed.
   */
  lemma MoveAfterItselfThrows<T>(s: seq<Snapshot<T>>, o: nat, snapshot: Snapshot<T>)
    requires UniqueKeys(s) && o < |s| && s[o].key == snapshot.key
    ensures ApplyMoved(s, snapshot, Some(snapshot.key)) == Step(RemoveAt(s, o), Err(IllegalArgument(KEY_NOT_FOUND)))
  {
    KeyIndexUnique(s, o);
    RemoveKeepsKeysUnique(s, o);
  }

  /** A snapshot moved after the snapshot already before it stays where it is, with its new data. */
  lemma MoveToOwnPlace<T>(s: seq<Snapshot<T>>, o: nat, snapshot: Snapshot<T>)
    requires UniqueKeys(s) && o < |s| && s[o].key == snapshot.key
    ensures ApplyMoved(s, snapshot, if o == 0 then None else Some(s[o - 1].key))
         == Step(s[o := snapshot], Ok(ChildChange(Moved, o, o)))
  {
    var previous := if o == 0 then None else Some(s[o - 1].key);
    var rest := RemoveAt(s, o);
    KeyIndexUnique(s, o);
    if o > 0 {
      RemoveKeepsKeysUnique(s, o);
      RemoveAtIndex(s, o, o - 1);
      KeyIndexUnique(rest, o - 1);
    }
    MovedIsRemovedThenAdded(s, snapshot, previous, o, o);
    ReplaceByRemoveInsert(s, o, snapshot);
  }

  /** A snapshot added after the last one is appended, and announced at the old size. */
  lemma AddAfterLast<T>(s: seq<Snapshot<T>>, snapshot: Snapshot<T>)
    requires UniqueKeys(s) && |s| > 0
    ensures ApplyAdded(s, snapshot, Some(s[|s| - 1].key)) == Step(s + [snapshot], Ok(ChildChange(Added, |s|, -1)))
  {
    AddAfterKey(s, |s| - 1, snapshot);
    assert Insert(s, |s|, snapshot) == s + [snapshot];
  }

  /** Children added one after the other, each after the previous one, end up in arrival order. */
  lemma AddInArrivalOrder<T>(a: Snapshot<T>, b: Snapshot<T>, c: Snapshot<T>)
    requires a.key != b.key
    ensures ApplyAdded([], a, None) == Step([a], Ok(ChildChange(Added, 0, -1)))
    ensures ApplyAdded([a], b, Some(a.key)) == Step([a, b], Ok(ChildChange(Added, 1, -1)))
    ensures ApplyAdded([a, b], c, Some(b.key)) == Step([a, b, c], Ok(ChildChange(Added, 2, -1)))
  {
    assert Insert([], 0, a) == [a];
    assert UniqueKeys([a]);
    AddAfterLast([a], b);
    assert [a] + [b] == [a, b];
    assert UniqueKeys([a, b]);
    AddAfterLast([a, b], c);
    assert [a, b] + [c] == [a, b, c];
  }

  /** With unique keys, a removal deletes exactly the snapshot holding the key. */
  lemma RemoveByKey<T>(s: seq<Snapshot<T>>, o: nat, snapshot: Snapshot<T>)
    requires UniqueKeys(s) && o < |s| && s[o].key == snapshot.key
    ensures ApplyRemoved(s, snapshot) == Step(RemoveAt(s, o), Ok(ChildChange(Removed, o, -1)))
  {
    KeyIndexUnique(s, o);
  }

  /** With unique keys, an addition after a key lands right behind the snapshot holding it. */
  lemma AddAfterKey<T>(s: seq<Snapshot<T>>, p: nat, snapshot: Snapshot<T>)
    requires UniqueKeys(s) && p < |s|
    ensures ApplyAdded(s, snapshot, Some(s[p].key)) == Step(Insert(s, p + 1, snapshot), Ok(ChildChange(Added, p + 1, -1)))
  {
    KeyIndexUnique(s, p);
    assert InsertionIndex(s, Some(s[p].key)) == Ok(p + 1);
  }

  /**
   * A snapshot moved after another snapshot of the list lands right after it:
   * one place further when the predecessor came before it, at the
   * predecessor's old place otherwise (everything behind the removed one shifted left).
   */
  lemma MoveAfterOther<T>(s: seq<Snapshot<T>>, o: nat, p: nat, snapshot: Snapshot<T>)
    requires UniqueKeys(s) && o < |s| && p < |s| && o != p && s[o].key == snapshot.key
    ensures var n := if p < o then p + 1 else p;
      ApplyMoved(s, snapshot, Some(s[p].key)) == Step(Insert(RemoveAt(s, o), n, snapshot), Ok(ChildChange(Moved, n, o)))
  {
    var n := if p < o then p + 1 else p;
    KeyIndexUnique(s, o);
    KeyIndexAfterRemoval(s, o, p);
    MovedIsRemovedThenAdded(s, snapshot, Some(s[p].key), o, n);
  }

  /** With unique keys, a key other than the removed one is found one place lower when it came after the gap. */
  lemma KeyIndexAfterRemoval<T>(s: seq<Snapshot<T>>, o: nat, p: nat)
    requires UniqueKeys(s) && o < |s| && p < |s| && o != p
    ensures KeyIndex(RemoveAt(s, o), s[p].key) == Ok(if p < o then p else p - 1)
  {
    var rest := RemoveAt(s, o);
    var m := if p < o then p else p - 1;
    RemoveKeepsKeysUnique(s, o);
    RemoveAtIndex(s, o, m);
    assert rest[m] == s[p];
    KeyIndexUnique(rest, m);
  }

  /** Moving the first of three children after the last one rotates the list. */
  lemma MoveFirstToLast<T>(a: Snapshot<T>, b: Snapshot<T>, c: Snapshot<T>)
    requires UniqueKeys([a, b, c])
    ensures ApplyMoved([a, b, c], a, Some(c.key)) == Step([b, c, a], Ok(ChildChange(Moved, 2, 0)))
  {
    MoveAfterOther([a, b, c], 0, 2, a);
    assert RemoveAt([a, b, c], 0) == [b, c];
    assert Insert([b, c], 2, a) == [b, c, a];
  }

  /**
   * A move that succeeds is the removal at the key's index followed by the
   * insertion at the predecessor's place in the shortened list, reported with
   * both indices.
   */
  lemma MovedIsRemovedThenAdded<T>(s: seq<Snapshot<T>>, x: Snapshot<T>, previousChildKey: Option<string>, o: nat, n: nat)
    requires KeyIndex(s, x.key) == Ok(o)
    requires previousChildKey.None? ==> n == 0
    requires previousChildKey.Some? ==>
      var p := KeyIndex(RemoveAt(s, o), previousChildKey.value);
      p.Ok? && n == p.value + 1
    ensures ApplyMoved(s, x, previousChildKey) == Step(Insert(RemoveAt(s, o), n, x), Ok(ChildChange(Moved, n, o)))
  {
    assert InsertionIndex(RemoveAt(s, o), previousChildKey) == Ok(n);
  }
}

/**
  The `/api/todos/move` route: it checks the todo id, then the source key,
  then the destination key, answering 400 at the first that is invalid; then
  it removes the todo from the source's sorted set and adds it to the
  destination's with the current time as its score. The clock is a parameter.
 */
module MoveRoute {
  import opened Wrappers
  import opened Validation
  import opened Storage

  datatype Response = Success | BadRequest(error: string)

  /** The first failing check, in the order the handler makes them. */
  function Rejection(todoId: string, fromSource: string, toSource: string): (r: Option<string>)
    ensures r == None <==> IsValidId(todoId) && IsValidSourceKey(fromSource) && IsValidSourceKey(toSource)
    ensures !IsValidId(todoId) ==> r == Some("Invalid todoId")
    ensures IsValidId(todoId) && !IsValidSourceKey(fromSource) ==> r == Some("Invalid fromSource")
    ensures IsValidId(todoId) && IsValidSourceKey(fromSource) && !IsValidSourceKey(toSource) ==> r == Some("Invalid toSource")
  {
    if !IsValidId(todoId) then Some("Invalid todoId")
    else if !IsValidSourceKey(fromSource) then Some("Invalid fromSource")
    else if !IsValidSourceKey(toSource) then Some("Invalid toSource")
    else None
  }

  /** The sorted sets after the pipeline `zrem(from, id)`, `zadd(to, now, id)`. */
  function Moved(zsets: map<string, ZSet>, todoId: string, fromSource: string, toSource: string, now: int): map<string, ZSet> {
    ZAdded(ZRemoved(zsets, fromSource, todoId), toSource, now, todoId)
  }

  /** POST: validate, then move the todo between the two sorted sets. */
  method Post(store: Store, todoId: string, fromSource: string, toSource: string, now: int) returns (response: Response)
    modifies store
    ensures Rejection(todoId, fromSource, toSource).Some? ==>
      response == BadRequest(Rejection(todoId, fromSource, toSource).value) && store.zsets == old(store.zsets)
    ensures Rejection(todoId, fromSource, toSource).None? ==>
      response == Success && store.zsets == Moved(old(store.zsets), todoId, fromSource, toSource, now)
    ensures store.tabs == old(store.tabs)
  {
    if !IsValidId(todoId) {
      return BadRequest("Invalid todoId");
    }
    if !IsValidSourceKey(fromSource) {
      return BadRequest("Invalid fromSource");
    }
    if !IsValidSourceKey(toSource) {
      return BadRequest("Invalid toSource");
    }
    store.ZRem(fromSource, todoId);
    store.ZAdd(toSource, now, todoId);
    response := Success;
  }

  /** An invalid todo id is reported whatever the two source keys are. */
  lemma InvalidIdFirst(todoId: string, fromSource: string, toSource: string)
    requires !IsValidId(todoId)
    ensures Rejection(todoId, fromSource, toSource) == Some("Invalid todoId")
  {
  }

  /**
    Between two different sets, the todo leaves the source and is in the
    destination once, with the clock as its score.
   */
  lemma MovedMembership(zsets: map<string, ZSet>, todoId: string, fromSource: string, toSource: string, now: int)
    ensures var r := Moved(zsets, todoId, fromSource, toSource, now);
      && todoId in ZSetOf(r, toSource) && ZSetOf(r, toSource)[todoId] == now
      && (fromSource != toSource ==> todoId !in ZSetOf(r, fromSource))
  {
  }

  /** If the todo was in the source and not in the destination, the source shrinks by one and the destination grows by one. */
  lemma MovedConservation(zsets: map<string, ZSet>, todoId: string, fromSource: string, toSource: string, now: int)
    requires fromSource != toSource
    requires todoId in ZSetOf(zsets, fromSource) && todoId !in ZSetOf(zsets, toSource)
    ensures var r := Moved(zsets, todoId, fromSource, toSource, now);
      && |ZSetOf(r, fromSource).Keys| == |ZSetOf(zsets, fromSource).Keys| - 1
      && |ZSetOf(r, toSource).Keys| == |ZSetOf(zsets, toSource).Keys| + 1
  {
    var r := Moved(zsets, todoId, fromSource, toSource, now);
    assert ZSetOf(r, fromSource).Keys == ZSetOf(zsets, fromSource).Keys - {todoId};
    assert ZSetOf(r, toSource).Keys == ZSetOf(zsets, toSource).Keys + {todoId};
  }

  /** Every other member of every set keeps its membership and its score, and the other sets are untouched. */
  lemma MovedFrame(zsets: map<string, ZSet>, todoId: string, fromSource: string, toSource: string, now: int, key: string, m: string)
    requires m != todoId
    ensures var r := Moved(zsets, todoId, fromSource, toSource, now);
      && (m in ZSetOf(r, key) <==> m in ZSetOf(zsets, key))
      && (m in ZSetOf(zsets, key) ==> ZSetOf(r, key)[m] == ZSetOf(zsets, key)[m])
    ensures key != fromSource && key != toSource ==>
      ZSetOf(Moved(zsets, todoId, fromSource, toSource, now), key) == ZSetOf(zsets, key)
  {
  }

  /** A clock later than every score in the destination makes the moved todo sort last there. */
  lemma MovedSortsLast(zsets: map<string, ZSet>, todoId: string, fromSource: string, toSource: string, now: int)
    requires forall m :: m in ZSetOf(zsets, toSource) ==> ZSetOf(zsets, toSource)[m] < now
    ensures var z := ZSetOf(Moved(zsets, todoId, fromSource, toSource, now), toSource);
      todoId in z && forall m :: m in z && m != todoId ==> z[m] < z[todoId]
  {
    var z := ZSetOf(Moved(zsets, todoId, fromSource, toSource, now), toSource);
    forall m | m in z && m != todoId
      ensures z[m] < z[todoId]
    {
      MovedFrame(zsets, todoId, fromSource, toSource, now, toSource, m);
    }
  }
}

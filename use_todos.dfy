/**
  The todo mutations of the client: each one snapshots the cached collection
  under its query key, installs an optimistic value computed by a pure
  transform (append, update, delete, reorder), puts the snapshot back if the
  request fails, and marks the key stale once it settles. The request itself
  and the refetch it triggers are not modelled.
 */
module UseTodos {
  import opened Wrappers
  import opened Strings
  import opened Validation
  import opened Types
  import opened QueryKeys
  import opened QueryCache

  // ---------------------------------------------------------------------------
  // Pure transforms of a todo sequence

  /** The todo a create installs before the server answers; `clock` is `Date.now()`, `isoNow` the ISO time. */
  function OptimisticTodo(text: string, clock: nat, isoNow: string): (t: Todo)
    ensures t.text == text && !t.completed && t.createdAt == t.updatedAt == isoNow
    ensures StartsWith(t.id, "temp-") && t.id[5..] == NatToString(clock)
  {
    Todo("temp-" + NatToString(clock), text, false, isoNow, isoNow)
  }

  /** The optional fields of an update; an absent field leaves the todo's own value. */
  datatype Patch = Patch(text: Option<string>, completed: Option<bool>)

  /** `{ ...t, ...updates }`. */
  function ApplyPatch(t: Todo, p: Patch): (r: Todo)
    ensures r.id == t.id && r.createdAt == t.createdAt && r.updatedAt == t.updatedAt
    ensures r.text == p.text.GetOr(t.text)
    ensures r.completed == p.completed.GetOr(t.completed)
  {
    t.(text := p.text.GetOr(t.text), completed := p.completed.GetOr(t.completed))
  }

  /** `todos.map(t => t.id === id ? { ...t, ...updates } : t)`. */
  function UpdateTodos(ts: seq<Todo>, id: string, p: Patch): (r: seq<Todo>)
    ensures |r| == |ts|
    ensures forall i :: 0 <= i < |ts| && ts[i].id != id ==> r[i] == ts[i]
    ensures forall i :: 0 <= i < |ts| && ts[i].id == id ==> r[i] == ApplyPatch(ts[i], p)
  {
    if ts == [] then []
    else [if ts[0].id == id then ApplyPatch(ts[0], p) else ts[0]] + UpdateTodos(ts[1..], id, p)
  }

  /** An update keeps the ids and their order. */
  lemma UpdateKeepsIds(ts: seq<Todo>, id: string, p: Patch)
    ensures Ids(UpdateTodos(ts, id, p)) == Ids(ts)
  {
  }

  /** Updating with the same fields a second time changes nothing more. */
  lemma UpdateIdempotent(ts: seq<Todo>, id: string, p: Patch)
    ensures UpdateTodos(UpdateTodos(ts, id, p), id, p) == UpdateTodos(ts, id, p)
  {
    var once := UpdateTodos(ts, id, p);
    UpdateKeepsIds(ts, id, p);
    assert forall i :: 0 <= i < |ts| ==> once[i].id == ts[i].id;
  }

  /** `todos.filter(t => t.id !== id)`. */
  function RemoveTodos(ts: seq<Todo>, id: string): (r: seq<Todo>)
    ensures |r| <= |ts|
    ensures forall i :: 0 <= i < |r| ==> r[i].id != id
  {
    if ts == [] then []
    else (if ts[0].id != id then [ts[0]] else []) + RemoveTodos(ts[1..], id)
  }

  /** `sub` is `ts` with some elements left out, the rest in their order. */
  predicate IsSubsequence(sub: seq<Todo>, ts: seq<Todo>)
    decreases |ts|
  {
    if sub == [] then true
    else if ts == [] then false
    else if sub[0] == ts[0] then IsSubsequence(sub[1..], ts[1..])
    else IsSubsequence(sub, ts[1..])
  }

  /** A delete keeps the other todos in their original order: the result is a subsequence of the snapshot. */
  lemma {:induction false} RemoveIsSubsequence(ts: seq<Todo>, id: string)
    ensures IsSubsequence(RemoveTodos(ts, id), ts)
  {
    if ts != [] {
      RemoveIsSubsequence(ts[1..], id);
      var rest := RemoveTodos(ts[1..], id);
      if ts[0].id != id {
        assert ([ts[0]] + rest)[1..] == rest;
      } else {
        assert [] + rest == rest;
        assert rest != [] ==> rest[0] != ts[0];
      }
    }
  }

  /** A delete keeps every todo with another id as often as it occurs, and no todo with the id. */
  lemma {:induction false} RemoveCounts(ts: seq<Todo>, id: string)
    ensures forall t: Todo :: t.id != id ==> multiset(RemoveTodos(ts, id))[t] == multiset(ts)[t]
    ensures forall t: Todo :: t.id == id ==> multiset(RemoveTodos(ts, id))[t] == 0
  {
    if ts != [] {
      RemoveCounts(ts[1..], id);
      assert ts == [ts[0]] + ts[1..];
    }
  }

  /** Deleting twice is deleting once. */
  lemma {:induction false} RemoveIdempotent(ts: seq<Todo>, id: string)
    ensures RemoveTodos(RemoveTodos(ts, id), id) == RemoveTodos(ts, id)
  {
    if ts != [] {
      RemoveIdempotent(ts[1..], id);
      var rest := RemoveTodos(ts[1..], id);
      if ts[0].id != id {
        assert ([ts[0]] + rest)[1..] == rest;
      } else {
        assert [] + rest == rest;
      }
    }
  }

  /** `new Map(todos.map(t => [t.id, t]))`: a later todo with the same id replaces an earlier one. */
  function TodoMap(ts: seq<Todo>): (m: map<string, Todo>)
    ensures m.Keys == set i | 0 <= i < |ts| :: ts[i].id
    ensures forall k :: k in m ==> m[k].id == k && m[k] in ts
  {
    if ts == [] then map[]
    else
      var init := ts[..|ts| - 1];
      assert forall i :: 0 <= i < |init| ==> init[i] == ts[i];
      var m := TodoMap(init);
      assert forall k :: k in m ==> m[k] in ts;
      m[ts[|ts| - 1].id := ts[|ts| - 1]]
  }

  /** Under each id the map holds the last todo with that id: a later duplicate replaces an earlier one. */
  lemma {:induction false} TodoMapLast(ts: seq<Todo>)
    ensures forall i :: 0 <= i < |ts| && (forall j :: i < j < |ts| ==> ts[j].id != ts[i].id) ==>
      TodoMap(ts)[ts[i].id] == ts[i]
  {
    if ts != [] {
      var init := ts[..|ts| - 1];
      TodoMapLast(init);
      forall i | 0 <= i < |ts| && (forall j :: i < j < |ts| ==> ts[j].id != ts[i].id)
        ensures TodoMap(ts)[ts[i].id] == ts[i]
      {
        if i < |ts| - 1 {
          assert init[i] == ts[i];
          assert forall j :: i < j < |init| ==> init[j] == ts[j];
        }
      }
    }
  }

  /** `todoIds.map(id => todoMap.get(id)).filter(Boolean)`. */
  function ReorderTodos(ts: seq<Todo>, ids: seq<string>): (r: seq<Todo>)
    ensures |r| <= |ids|
    ensures forall j :: 0 <= j < |r| ==> r[j] in ts
  {
    if ids == [] then []
    else
      var m := TodoMap(ts);
      (if ids[0] in m then [m[ids[0]]] else []) + ReorderTodos(ts, ids[1..])
  }

  /** The ids of `ids` that name a todo of `ts`, in the order of `ids`. */
  function KnownIds(ts: seq<Todo>, ids: seq<string>): seq<string> {
    if ids == [] then []
    else (if ids[0] in Ids(ts) then [ids[0]] else []) + KnownIds(ts, ids[1..])
  }

  /** A reorder yields exactly the listed ids present in the snapshot, in the listed order: unknown ids are ignored. */
  lemma {:induction false} ReorderIds(ts: seq<Todo>, ids: seq<string>)
    ensures Ids(ReorderTodos(ts, ids)) == KnownIds(ts, ids)
  {
    if ids != [] {
      ReorderIds(ts, ids[1..]);
      var m := TodoMap(ts);
      var head: seq<Todo> := if ids[0] in m then [m[ids[0]]] else [];
      IdsConcat(head, ReorderTodos(ts, ids[1..]));
      assert ids[0] in m <==> ids[0] in Ids(ts);
    }
  }

  lemma IdsConcat(a: seq<Todo>, b: seq<Todo>)
    ensures Ids(a + b) == Ids(a) + Ids(b)
  {
  }

  predicate DistinctIds(ts: seq<Todo>) {
    forall i, j :: 0 <= i < j < |ts| ==> ts[i].id != ts[j].id
  }

  /** With distinct ids, the map finds each todo by its id. */
  lemma TodoMapAt(ts: seq<Todo>, i: nat)
    requires DistinctIds(ts) && i < |ts|
    ensures TodoMap(ts)[ts[i].id] == ts[i]
  {
    var m := TodoMap(ts);
    var t := m[ts[i].id];
    var j :| 0 <= j < |ts| && ts[j] == t;
  }

  /**
    Reordering by a permutation of the snapshot's ids (the ids distinct) gives
    back exactly the snapshot's todos, in the new order, and nothing is lost
    or duplicated.
   */
  lemma {:induction false} ReorderPermutation(ts: seq<Todo>, ids: seq<string>)
    requires DistinctIds(ts) && multiset(ids) == multiset(Ids(ts))
    ensures Ids(ReorderTodos(ts, ids)) == ids
    ensures forall j :: 0 <= j < |ids| ==> ReorderTodos(ts, ids)[j] in ts && ReorderTodos(ts, ids)[j].id == ids[j]
  {
    AllKnown(ts, ids);
    ReorderIds(ts, ids);
  }

  /** Ids that all name todos of `ts` are all kept. */
  lemma {:induction false} AllKnown(ts: seq<Todo>, ids: seq<string>)
    requires forall j :: 0 <= j < |ids| ==> ids[j] in multiset(Ids(ts))
    ensures KnownIds(ts, ids) == ids
  {
    if ids != [] {
      AllKnown(ts, ids[1..]);
    }
  }

  // ---------------------------------------------------------------------------
  // The mutation callbacks on the cache

  /** What `onMutate` hands to `onError` and `onSettled`. */
  datatype Context = Context(queryKey: QueryKey, snapshot: Option<Collection>)

  /** The cached value after installing `transform` of the snapshot, when there is one. */
  function Installed(data: map<QueryKey, Collection>, key: QueryKey, todos: seq<Todo>): map<QueryKey, Collection>
    requires key in data
  {
    data[key := data[key].WithTodos(todos)]
  }

  /** `useCreateTodo().onMutate`: append the optimistic todo to the cached collection, if any. */
  method CreateOnMutate(cache: Cache, text: string, source: Source, clock: nat, isoNow: string)
    returns (ctx: Context, tempId: string)
    requires cache.Valid()
    modifies cache
    ensures cache.Valid()
    ensures ctx == Context(SourceQueryKey(source), old(cache.GetQueryData(SourceQueryKey(source))))
    ensures tempId == OptimisticTodo(text, clock, isoNow).id
    ensures ctx.snapshot.None? ==> cache.data == old(cache.data)
    ensures ctx.snapshot.Some? ==>
      cache.data == Installed(old(cache.data), ctx.queryKey, ctx.snapshot.value.todos + [OptimisticTodo(text, clock, isoNow)])
    ensures cache.order == old(cache.order) && cache.invalidated == old(cache.invalidated)
  {
    var queryKey := SourceQueryKey(source);
    var snapshot := cache.GetQueryData(queryKey);
    var optimistic := OptimisticTodo(text, clock, isoNow);
    tempId := optimistic.id;
    if snapshot.Some? {
      cache.SetQueryData(queryKey, snapshot.value.WithTodos(snapshot.value.todos + [optimistic]));
    }
    ctx := Context(queryKey, snapshot);
  }

  /** `useUpdateTodo().onMutate`: apply the supplied fields to the todos with the id. */
  method UpdateOnMutate(cache: Cache, id: string, source: string, patch: Patch) returns (ctx: Context)
    requires cache.Valid()
    modifies cache
    ensures cache.Valid()
    ensures ctx == Context(SourceToQueryKey(source), old(cache.GetQueryData(SourceToQueryKey(source))))
    ensures ctx.snapshot.None? ==> cache.data == old(cache.data)
    ensures ctx.snapshot.Some? ==>
      cache.data == Installed(old(cache.data), ctx.queryKey, UpdateTodos(ctx.snapshot.value.todos, id, patch))
    ensures cache.order == old(cache.order) && cache.invalidated == old(cache.invalidated)
  {
    var queryKey := SourceToQueryKey(source);
    var snapshot := cache.GetQueryData(queryKey);
    if snapshot.Some? {
      cache.SetQueryData(queryKey, snapshot.value.WithTodos(UpdateTodos(snapshot.value.todos, id, patch)));
    }
    ctx := Context(queryKey, snapshot);
  }

  /** `useDeleteTodo().onMutate`: drop every todo with the id. */
  method DeleteOnMutate(cache: Cache, id: string, source: string) returns (ctx: Context)
    requires cache.Valid()
    modifies cache
    ensures cache.Valid()
    ensures ctx == Context(SourceToQueryKey(source), old(cache.GetQueryData(SourceToQueryKey(source))))
    ensures ctx.snapshot.None? ==> cache.data == old(cache.data)
    ensures ctx.snapshot.Some? ==>
      cache.data == Installed(old(cache.data), ctx.queryKey, RemoveTodos(ctx.snapshot.value.todos, id))
    ensures cache.order == old(cache.order) && cache.invalidated == old(cache.invalidated)
  {
    var queryKey := SourceToQueryKey(source);
    var snapshot := cache.GetQueryData(queryKey);
    if snapshot.Some? {
      cache.SetQueryData(queryKey, snapshot.value.WithTodos(RemoveTodos(snapshot.value.todos, id)));
    }
    ctx := Context(queryKey, snapshot);
  }

  /** `useReorderTodos().onMutate`: the cached todos in the order of `todoIds`. */
  method ReorderOnMutate(cache: Cache, key: string, todoIds: seq<string>) returns (ctx: Context)
    requires cache.Valid()
    modifies cache
    ensures cache.Valid()
    ensures ctx == Context(ReorderQueryKey(key), old(cache.GetQueryData(ReorderQueryKey(key))))
    ensures ctx.snapshot.None? ==> cache.data == old(cache.data)
    ensures ctx.snapshot.Some? ==>
      cache.data == Installed(old(cache.data), ctx.queryKey, ReorderTodos(ctx.snapshot.value.todos, todoIds))
    ensures cache.order == old(cache.order) && cache.invalidated == old(cache.invalidated)
  {
    var queryKey := ReorderQueryKey(key);
    var snapshot := cache.GetQueryData(queryKey);
    if snapshot.Some? {
      cache.SetQueryData(queryKey, snapshot.value.WithTodos(ReorderTodos(snapshot.value.todos, todoIds)));
    }
    ctx := Context(queryKey, snapshot);
  }

  /** `onError`, the same in all four mutations: put the snapshot back when there was one. */
  method OnError(cache: Cache, ctx: Context)
    requires cache.Valid()
    modifies cache
    ensures cache.Valid()
    ensures ctx.snapshot.None? ==> cache.data == old(cache.data) && cache.order == old(cache.order)
    ensures ctx.snapshot.Some? ==> cache.data == old(cache.data)[ctx.queryKey := ctx.snapshot.value]
    ensures ctx.snapshot.Some? ==>
      cache.order == if ctx.queryKey in old(cache.order) then old(cache.order) else old(cache.order) + [ctx.queryKey]
    ensures cache.invalidated == old(cache.invalidated)
  {
    if ctx.snapshot.Some? {
      cache.SetQueryData(ctx.queryKey, ctx.snapshot.value);
    }
  }

  /** `onSettled`, the same in all four mutations: mark the mutation's own key stale. */
  method OnSettled(cache: Cache, ctx: Context)
    modifies cache
    ensures cache.invalidated == old(cache.invalidated) + {ctx.queryKey}
    ensures cache.data == old(cache.data) && cache.order == old(cache.order)
  {
    cache.InvalidateQueries(ctx.queryKey);
  }

  /**
    A failed mutation leaves the cache as it found it: whatever `onMutate`
    installed under the key of a context that holds a snapshot, `onError`
    overwrites with that snapshot, and every other key is untouched.
   */
  lemma RollbackRestores(before: map<QueryKey, Collection>, ctx: Context, todos: seq<Todo>)
    requires ctx.snapshot.Some? && ctx.queryKey in before && ctx.snapshot.value == before[ctx.queryKey]
    ensures Installed(before, ctx.queryKey, todos)[ctx.queryKey := ctx.snapshot.value] == before
  {
    var after := Installed(before, ctx.queryKey, todos)[ctx.queryKey := ctx.snapshot.value];
    assert after.Keys == before.Keys;
  }

  /** A create that fails: `onMutate` and then `onError` leave the cache's data and queries as they were. */
  method FailedCreate(cache: Cache, text: string, source: Source, clock: nat, isoNow: string)
    requires cache.Valid()
    modifies cache
    ensures cache.Valid()
    ensures cache.data == old(cache.data) && cache.order == old(cache.order) && cache.invalidated == old(cache.invalidated)
  {
    var ctx, _ := CreateOnMutate(cache, text, source, clock, isoNow);
    OnError(cache, ctx);
    if ctx.snapshot.Some? {
      RollbackRestores(old(cache.data), ctx, ctx.snapshot.value.todos + [OptimisticTodo(text, clock, isoNow)]);
    }
  }

  /** An update that fails: `onMutate` and then `onError` leave the cache's data and queries as they were. */
  method FailedUpdate(cache: Cache, id: string, source: string, patch: Patch)
    requires cache.Valid()
    modifies cache
    ensures cache.Valid()
    ensures cache.data == old(cache.data) && cache.order == old(cache.order) && cache.invalidated == old(cache.invalidated)
  {
    var ctx := UpdateOnMutate(cache, id, source, patch);
    OnError(cache, ctx);
    if ctx.snapshot.Some? {
      RollbackRestores(old(cache.data), ctx, UpdateTodos(ctx.snapshot.value.todos, id, patch));
    }
  }

  /** A delete that fails: `onMutate` and then `onError` leave the cache's data and queries as they were. */
  method FailedDelete(cache: Cache, id: string, source: string)
    requires cache.Valid()
    modifies cache
    ensures cache.Valid()
    ensures cache.data == old(cache.data) && cache.order == old(cache.order) && cache.invalidated == old(cache.invalidated)
  {
    var ctx := DeleteOnMutate(cache, id, source);
    OnError(cache, ctx);
    if ctx.snapshot.Some? {
      RollbackRestores(old(cache.data), ctx, RemoveTodos(ctx.snapshot.value.todos, id));
    }
  }

  /** A reorder that fails: `onMutate` and then `onError` leave the cache's data and queries as they were. */
  method FailedReorder(cache: Cache, key: string, todoIds: seq<string>)
    requires cache.Valid()
    modifies cache
    ensures cache.Valid()
    ensures cache.data == old(cache.data) && cache.order == old(cache.order) && cache.invalidated == old(cache.invalidated)
  {
    var ctx := ReorderOnMutate(cache, key, todoIds);
    OnError(cache, ctx);
    if ctx.snapshot.Some? {
      RollbackRestores(old(cache.data), ctx, ReorderTodos(ctx.snapshot.value.todos, todoIds));
    }
  }

  /** On a valid source key, the update and delete mutations touch the entry of exactly the source the key names. */
  lemma ScopedKey(source: string)
    requires IsValidSourceKey(source)
    ensures SourceToQueryKey(source) == SourceQueryKey(SourceOf(source))
    ensures ReorderQueryKey(source) == SourceQueryKey(SourceOf(source))
  {
    SourceToQueryKeyValid(source);
    ReorderQueryKeyAgrees(source);
  }
}

/**
  The drag-and-drop provider of the day view: it has no state of its own. On
  a drop it looks the dragged id up in the cached day queries, then in the
  cached list queries, and when the item under the cursor sits in the same
  cached collection at another index, it runs the reorder mutation with the
  collection's ids moved by `arrayMove`.
 */
module TodoDndProvider {
  import opened Wrappers
  import opened Strings
  import opened Validation
  import opened Types
  import opened QueryKeys
  import opened QueryCache
  import opened ArrayOps
  import opened UseTodos

  /** A key entry inside a template literal: `undefined` prints as such. */
  function KeyText(p: KeyPart): string {
    match p
    case Part(s) => s
    case Undefined => "undefined"
  }

  /** `qk[i]`: `undefined` past the end. */
  function Entry(qk: QueryKey, i: nat): KeyPart {
    if i < |qk| then qk[i] else Undefined
  }

  /** The source key the provider builds for a cached day query. */
  function DayContainerKey(qk: QueryKey): string {
    "day:" + KeyText(Entry(qk, 1))
  }

  /** The source key the provider builds for a cached list query. */
  function ListContainerKey(qk: QueryKey): string {
    "list:" + KeyText(Entry(qk, 1)) + ":" + KeyText(Entry(qk, 2))
  }

  /** What `findContainerForItem` returns: the source key and the query key it was found under. */
  datatype Container = Container(key: string, queryKey: QueryKey)

  /**
    A cached query that the filter `[head]` selects (query filters match key
    prefixes) and whose data holds the item.
   */
  predicate Holds(qk: QueryKey, data: map<QueryKey, Collection>, head: string, itemId: string) {
    |qk| >= 1 && qk[0] == Part(head) && qk in data && HasId(data[qk].todos, itemId)
  }

  /** The index of the first query from `i` on that holds the item under `head`; `|order|` when there is none. */
  function FirstHolding(order: seq<QueryKey>, data: map<QueryKey, Collection>, head: string, itemId: string, i: nat): (k: nat)
    requires i <= |order|
    ensures i <= k <= |order|
    ensures k < |order| ==> Holds(order[k], data, head, itemId)
    ensures forall j :: i <= j < k ==> !Holds(order[j], data, head, itemId)
    decreases |order| - i
  {
    if i == |order| then |order|
    else if Holds(order[i], data, head, itemId) then i
    else FirstHolding(order, data, head, itemId, i + 1)
  }

  /** `findContainerForItem`: the first day query holding the item, else the first list query, else nothing. */
  function ContainerFor(order: seq<QueryKey>, data: map<QueryKey, Collection>, itemId: string): Option<Container> {
    var d := FirstHolding(order, data, "dayTodos", itemId, 0);
    if d < |order| then Some(Container(DayContainerKey(order[d]), order[d]))
    else
      var l := FirstHolding(order, data, "listTodos", itemId, 0);
      if l < |order| then Some(Container(ListContainerKey(order[l]), order[l]))
      else None
  }

  /**
    The container found holds the item; a list query is chosen only when no
    day query holds it; nothing is found exactly when no day or list query
    holds it.
   */
  lemma ContainerForSpec(order: seq<QueryKey>, data: map<QueryKey, Collection>, itemId: string)
    ensures var c := ContainerFor(order, data, itemId);
      && (c.Some? ==> c.value.queryKey in order && c.value.queryKey in data
                      && HasId(data[c.value.queryKey].todos, itemId))
      && (c.Some? && c.value.queryKey[0] == Part("listTodos") ==>
            forall j :: 0 <= j < |order| ==> !Holds(order[j], data, "dayTodos", itemId))
      && (c.None? <==>
            forall j :: 0 <= j < |order| ==>
              !Holds(order[j], data, "dayTodos", itemId) && !Holds(order[j], data, "listTodos", itemId))
  {
    var d := FirstHolding(order, data, "dayTodos", itemId, 0);
    var l := FirstHolding(order, data, "listTodos", itemId, 0);
    var c := ContainerFor(order, data, itemId);
    if d == |order| && l < |order| {
      assert c.value.queryKey == order[l];
    }
  }

  /** `findContainerForItem`, as the two scans of the cached queries. */
  method FindContainerForItem(cache: Cache, itemId: string) returns (r: Option<Container>)
    ensures r == ContainerFor(cache.order, cache.data, itemId)
  {
    var queries := cache.order;
    var i := 0;
    while i < |queries|
      invariant i <= |queries|
      invariant FirstHolding(queries, cache.data, "dayTodos", itemId, i) == FirstHolding(queries, cache.data, "dayTodos", itemId, 0)
    {
      var qk := queries[i];
      var data := cache.GetQueryData(qk);
      if |qk| >= 1 && qk[0] == Part("dayTodos") && data.Some? && HasId(data.value.todos, itemId) {
        return Some(Container(DayContainerKey(qk), qk));
      }
      i := i + 1;
    }
    i := 0;
    while i < |queries|
      invariant i <= |queries|
      invariant FirstHolding(queries, cache.data, "listTodos", itemId, i) == FirstHolding(queries, cache.data, "listTodos", itemId, 0)
    {
      var qk := queries[i];
      var data := cache.GetQueryData(qk);
      if |qk| >= 1 && qk[0] == Part("listTodos") && data.Some? && HasId(data.value.todos, itemId) {
        return Some(Container(ListContainerKey(qk), qk));
      }
      i := i + 1;
    }
    return None;
  }

  /** The variables the drop hands to the reorder mutation. */
  datatype Reorder = Reorder(key: string, todoIds: seq<string>)

  /** The drop rule of `handleDragEnd`. */
  function PlanReorder(order: seq<QueryKey>, data: map<QueryKey, Collection>, activeId: string, over: Option<string>): Option<Reorder> {
    if over.None? then None
    else
      match ContainerFor(order, data, activeId)
      case None => None
      case Some(c) =>
        if c.queryKey !in data then None
        else
          var todos := data[c.queryKey].todos;
          var oldIndex, newIndex := FindIndex(todos, activeId), FindIndex(todos, over.value);
          if oldIndex != -1 && newIndex != -1 && oldIndex != newIndex
          then Some(Reorder(c.key, Ids(ArrayMove(todos, oldIndex, newIndex))))
          else None
  }

  /**
    A drop reorders exactly when something is under the cursor, the dragged
    item is found in the cache, and the item under the cursor is another
    item of the same cached collection.
   */
  lemma ReorderWhen(order: seq<QueryKey>, data: map<QueryKey, Collection>, activeId: string, over: Option<string>)
    ensures var c := ContainerFor(order, data, activeId);
      PlanReorder(order, data, activeId, over).Some? <==>
        && over.Some? && c.Some? && over.value != activeId
        && HasId(data[c.value.queryKey].todos, over.value)
  {
    ContainerForSpec(order, data, activeId);
  }

  /**
    The ids handed to the mutation are the container's ids, each kept, with
    the dragged id moved to the index of the item under the cursor, and the
    key is the container's source key.
   */
  lemma ReorderPermutes(order: seq<QueryKey>, data: map<QueryKey, Collection>, activeId: string, over: Option<string>)
    requires PlanReorder(order, data, activeId, over).Some?
    ensures var c := ContainerFor(order, data, activeId).value;
      var todos := data[c.queryKey].todos;
      var r := PlanReorder(order, data, activeId, over).value;
      && r.key == c.key
      && multiset(r.todoIds) == multiset(Ids(todos))
      && r.todoIds[FindIndex(todos, over.value)] == activeId
  {
    var c := ContainerFor(order, data, activeId).value;
    var todos := data[c.queryKey].todos;
    var oldIndex, newIndex := FindIndex(todos, activeId), FindIndex(todos, over.value);
    MovedIdsPermute(todos, oldIndex, newIndex);
    IdsArrayMove(todos, oldIndex, newIndex);
  }

  /** The query keys the todo hooks write: a day key, or a list key whose ids have no ':'. */
  predicate WellFormed(qk: QueryKey) {
    || (|qk| == 2 && qk[0] == Part("dayTodos") && qk[1].Part?)
    || (|qk| == 3 && qk[0] == Part("listTodos") && qk[1].Part? && qk[2].Part?
        && ':' !in qk[1].s && ':' !in qk[2].s)
  }

  /** The key a source names is well formed, and the provider rebuilds that source key from it. */
  lemma SourceQueryKeyWellFormed(src: Source)
    requires ValidSource(src)
    ensures WellFormed(SourceQueryKey(src))
    ensures src.Day? ==> DayContainerKey(SourceQueryKey(src)) == SourceKey(src)
    ensures src.List? ==> ListContainerKey(SourceQueryKey(src)) == SourceKey(src)
  {
    if src.List? {
      ValidIdHasNoColon(src.tabId);
      ValidIdHasNoColon(src.listId);
    }
  }

  /**
    The reorder mutation reads the source key the provider built back into
    the very query key the drop was read from.
   */
  lemma ContainerKeyRoundTrip(qk: QueryKey)
    requires WellFormed(qk)
    ensures qk[0] == Part("dayTodos") ==> ReorderQueryKey(DayContainerKey(qk)) == qk
    ensures qk[0] == Part("listTodos") ==> ReorderQueryKey(ListContainerKey(qk)) == qk
  {
    if qk[0] == Part("dayTodos") {
      RemovePrefix(DayContainerKey(qk), "day:");
      assert DayContainerKey(qk)[4..] == qk[1].s;
    } else {
      var a, b := qk[1].s, qk[2].s;
      var key := ListContainerKey(qk);
      assert key == "list:" + (a + ":" + b);
      RemovePrefix(key, "list:");
      assert key[5..] == a + ":" + b;
      SplitTwo(a, b);
      assert !StartsWith(key, "day:") by { assert key[0] == 'l'; }
      assert Parts([a, b]) == [Part(a), Part(b)];
    }
  }

  /** A found container's key is read back into its query key when that key is well formed. */
  lemma FoundKeyRoundTrip(order: seq<QueryKey>, data: map<QueryKey, Collection>, itemId: string)
    requires ContainerFor(order, data, itemId).Some?
    requires WellFormed(ContainerFor(order, data, itemId).value.queryKey)
    ensures var c := ContainerFor(order, data, itemId).value;
      ReorderQueryKey(c.key) == c.queryKey
  {
    ContainerForSpec(order, data, itemId);
    var c := ContainerFor(order, data, itemId).value;
    ContainerKeyRoundTrip(c.queryKey);
  }

  /**
    When the ids of a collection are distinct, reordering it by its ids moved
    by `arrayMove` gives exactly the moved collection.
   */
  lemma ReorderByMovedIds(ts: seq<Todo>, from: nat, to: nat)
    requires DistinctIds(ts) && from < |ts| && to < |ts|
    ensures ReorderTodos(ts, Ids(ArrayMove(ts, from, to))) == ArrayMove(ts, from, to)
  {
    var moved := ArrayMove(ts, from, to);
    MovedIdsPermute(ts, from, to);
    ReorderPermutation(ts, Ids(moved));
    var r := ReorderTodos(ts, Ids(moved));
    forall k | 0 <= k < |moved|
      ensures r[k] == moved[k]
    {
      ArrayMoveAt(ts, from, to, k);
      var m := MoveSource(from, to, k);
      var j :| 0 <= j < |ts| && ts[j] == r[k];
      assert ts[j].id == ts[m].id;
    }
  }

  /**
    `handleDragEnd`: find the dragged item's container, and when the item
    under the cursor is another item of it, run the reorder mutation, whose
    optimistic phase rewrites the cache.
   */
  method HandleDragEnd(cache: Cache, activeId: string, over: Option<string>) returns (request: Option<Reorder>)
    requires cache.Valid()
    modifies cache
    ensures cache.Valid()
    ensures request == PlanReorder(old(cache.order), old(cache.data), activeId, over)
    ensures request.None? ==> cache.data == old(cache.data)
    ensures request.Some? ==>
      var qk := ReorderQueryKey(request.value.key);
      cache.data ==
        if qk in old(cache.data)
        then Installed(old(cache.data), qk, ReorderTodos(old(cache.data)[qk].todos, request.value.todoIds))
        else old(cache.data)
    ensures cache.order == old(cache.order) && cache.invalidated == old(cache.invalidated)
  {
    if over.None? {
      return None;
    }
    var container := FindContainerForItem(cache, activeId);
    if container.None? {
      return None;
    }
    var data := cache.GetQueryData(container.value.queryKey);
    if data.None? {
      return None;
    }
    var oldIndex := FindIndex(data.value.todos, activeId);
    var newIndex := FindIndex(data.value.todos, over.value);
    if oldIndex != -1 && newIndex != -1 && oldIndex != newIndex {
      var reordered := ArrayMove(data.value.todos, oldIndex, newIndex);
      request := Some(Reorder(container.value.key, Ids(reordered)));
      var _ := ReorderOnMutate(cache, container.value.key, Ids(reordered));
    } else {
      request := None;
    }
  }

  /**
    On a well-formed key whose todos have distinct ids, a drop shows at once
    the collection moved by `arrayMove`, and no other cached collection
    changes.
   */
  lemma DropShowsMove(order: seq<QueryKey>, data: map<QueryKey, Collection>, activeId: string, over: Option<string>)
    requires PlanReorder(order, data, activeId, over).Some?
    requires var c := ContainerFor(order, data, activeId).value;
      WellFormed(c.queryKey) && c.queryKey in data && DistinctIds(data[c.queryKey].todos)
    ensures var c := ContainerFor(order, data, activeId).value;
      var r := PlanReorder(order, data, activeId, over).value;
      var todos := data[c.queryKey].todos;
      var after := Installed(data, c.queryKey, ReorderTodos(todos, r.todoIds));
      && ReorderQueryKey(r.key) == c.queryKey
      && after[c.queryKey].todos == ArrayMove(todos, FindIndex(todos, activeId), FindIndex(todos, over.value))
      && (forall k :: k in data && k != c.queryKey ==> k in after && after[k] == data[k])
  {
    var c := ContainerFor(order, data, activeId).value;
    FoundKeyRoundTrip(order, data, activeId);
    var todos := data[c.queryKey].todos;
    ReorderByMovedIds(todos, FindIndex(todos, activeId), FindIndex(todos, over.value));
  }
}

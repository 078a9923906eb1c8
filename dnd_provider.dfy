/**
  The drag-and-drop provider of the list view: a registry of the mounted
  todo containers (keyed by source key, in registration order), the drag
  state, and the drop rule. A drop within one container asks that container
  to reorder; a drop on another container writes both cached collections and
  issues a move, followed by a reorder when the todo is not dropped at the end.
  Cursor geometry is left to the library: a handler receives the ids of the
  dragged item and of the item or container under the cursor.
 */
module DndProvider {
  import opened Wrappers
  import opened Types
  import opened QueryKeys
  import opened QueryCache
  import opened ArrayOps
  import opened UseTodos

  datatype DragState = DragState(
    activeId: Option<string>,
    activeTodo: Option<Todo>,
    activeSource: Option<string>,
    overSource: Option<string>)

  const Idle: DragState := DragState(None, None, None, None)

  /** The requests a handler issues. */
  datatype Effect =
    | ContainerReorder(containerId: string, ids: seq<string>)   // the container's `onReorder(ids)`
    | MoveTodo(todoId: string, fromSource: string, toSource: string)
    | ReorderTodo(source: string, todoIds: seq<string>)

  /** The todos registered for a container, none when it is not registered. */
  function TodosOf(entries: map<string, seq<Todo>>, c: string): seq<Todo> {
    if c in entries then entries[c] else []
  }

  /** The position of the first container, from `i` on, whose todos include the id; `|order|` when there is none. */
  function FirstIndex(order: seq<string>, entries: map<string, seq<Todo>>, todoId: string, i: nat): (k: nat)
    requires i <= |order|
    ensures i <= k <= |order|
    ensures k < |order| ==> HasId(TodosOf(entries, order[k]), todoId)
    ensures forall j :: i <= j < k ==> !HasId(TodosOf(entries, order[j]), todoId)
    decreases |order| - i
  {
    if i == |order| then i
    else if HasId(TodosOf(entries, order[i]), todoId) then i
    else FirstIndex(order, entries, todoId, i + 1)
  }

  /** `findContainerForTodo`: the first registered container holding the id. */
  function FirstContaining(order: seq<string>, entries: map<string, seq<Todo>>, todoId: string): (r: Option<string>)
    ensures r.Some? ==> HasId(TodosOf(entries, r.value), todoId)
    ensures r.None? ==> forall j :: 0 <= j < |order| ==> !HasId(TodosOf(entries, order[j]), todoId)
  {
    var k := FirstIndex(order, entries, todoId, 0);
    if k < |order| then Some(order[k]) else None
  }

  /** A container id as a JavaScript condition sees it: `null` and the empty string are falsy. */
  predicate Truthy(c: Option<string>) {
    c.Some? && c.value != ""
  }

  /**
    The container an id dropped on belongs to: the container holding it, else
    the container with that id. A found id `""` counts as none, so the lookup
    falls back to the id itself, and a result `""` is no target at all.
   */
  function DropTarget(order: seq<string>, entries: map<string, seq<Todo>>, overId: string): (r: Option<string>)
    ensures r.Some? ==> r.value != "" && (HasId(TodosOf(entries, r.value), overId) || r.value == overId)
    ensures r.Some? && r.value != overId ==> r == FirstContaining(order, entries, overId)
    ensures Truthy(FirstContaining(order, entries, overId)) ==> r == FirstContaining(order, entries, overId)
    ensures !Truthy(FirstContaining(order, entries, overId)) ==>
      r == if overId in entries && overId != "" then Some(overId) else None
  {
    var found := FirstContaining(order, entries, overId);
    var t := if !Truthy(found) && overId in entries then Some(overId) else found;
    if Truthy(t) then t else None
  }

  /** What a drop amounts to. */
  datatype Drop =
    | NoDrop
    | SameReorder(containerId: string, ids: seq<string>)
    | CrossMove(todo: Todo, fromSource: string, toSource: string, insertIndex: nat)

  /** Where a todo dropped on `overId` goes in the destination: at that item if it is there, else at the end. */
  function InsertIndex(toTodos: seq<Todo>, toSource: string, overId: string): (i: nat)
    ensures i <= |toTodos|
  {
    if overId != toSource && FindIndex(toTodos, overId) != -1 then FindIndex(toTodos, overId) else |toTodos|
  }

  /** The drop rule of `handleDragEnd`, from the drag's source container, the dragged id and the drop target. */
  function PlanDrop(order: seq<string>, entries: map<string, seq<Todo>>, fromSource: Option<string>,
                    todoId: string, over: Option<string>): Drop
  {
    if over.None? || !Truthy(fromSource) then NoDrop
    else
      var overId := over.value;
      var target := DropTarget(order, entries, overId);
      if target.None? then NoDrop
      else
        var from, to := fromSource.value, target.value;
        if from !in entries || to !in entries then NoDrop
        else if from == to then
          var todos := entries[from];
          var oldIndex, newIndex := FindIndex(todos, todoId), FindIndex(todos, overId);
          if todoId == overId || oldIndex == -1 || newIndex == -1 then NoDrop
          else SameReorder(from, Ids(ArrayMove(todos, oldIndex, newIndex)))
        else
          match Find(entries[from], todoId)
          case None => NoDrop
          case Some(todo) => CrossMove(todo, from, to, InsertIndex(entries[to], to, overId))
  }

  /** The cache after the source's write: the cached source collection, if any, without the dragged id. */
  function SourceWritten(d: map<QueryKey, Collection>, from: string, todoId: string): (r: map<QueryKey, Collection>)
    ensures r.Keys == d.Keys
  {
    var fk := SourceToQueryKey(from);
    if fk in d then d[fk := d[fk].WithTodos(RemoveTodos(d[fk].todos, todoId))] else d
  }

  /** The cache after the optimistic writes of a cross-container drop: the source loses the todo, then the destination gains it. */
  function CacheAfter(d: map<QueryKey, Collection>, plan: Drop): map<QueryKey, Collection> {
    match plan
    case CrossMove(todo, from, to, insertIndex) =>
      var tk := SourceToQueryKey(to);
      var d1 := SourceWritten(d, from, todo.id);
      if tk in d1 then d1[tk := d1[tk].WithTodos(InsertAt(d1[tk].todos, insertIndex, todo))] else d1
    case _ => d
  }

  /** The requests a drop issues, given the cache after the source's write. */
  function EffectsOf(d: map<QueryKey, Collection>, plan: Drop): seq<Effect> {
    match plan
    case NoDrop => []
    case SameReorder(c, ids) => [ContainerReorder(c, ids)]
    case CrossMove(todo, from, to, insertIndex) =>
      var tk := SourceToQueryKey(to);
      var d1 := SourceWritten(d, from, todo.id);
      [MoveTodo(todo.id, from, to)]
      + (if tk in d1 && insertIndex != |d1[tk].todos|
         then [ReorderTodo(to, InsertAt(Ids(d1[tk].todos), insertIndex, todo.id))]
         else [])
  }

  predicate DistinctNames(order: seq<string>) {
    forall i, j :: 0 <= i < j < |order| ==> order[i] != order[j]
  }

  /** `order` with `c` left out. */
  function Without(order: seq<string>, c: string): (r: seq<string>)
    ensures forall x :: x in r <==> x in order && x != c
    ensures DistinctNames(order) ==> DistinctNames(r)
  {
    if order == [] then []
    else
      var rest := Without(order[1..], c);
      assert forall x :: x in order[1..] ==> x in order;
      if order[0] == c then rest
      else
        assert DistinctNames(order) ==> order[0] !in order[1..];
        [order[0]] + rest
  }

  class Provider {
    /** The registered container ids, in registration order. */
    var order: seq<string>
    /** The todos each registered container showed when it last registered. */
    var entries: map<string, seq<Todo>>
    var dragState: DragState
    /** The requests issued so far. */
    var effects: seq<Effect>
    const cache: Cache

    ghost predicate Valid()
      reads this, cache
    {
      && DistinctNames(order)
      && (forall c :: c in entries <==> c in order)
      && cache.Valid()
    }

    constructor (cache: Cache)
      requires cache.Valid()
      ensures Valid() && this.cache == cache
      ensures order == [] && entries == map[] && dragState == Idle && effects == []
    {
      this.cache := cache;
      order := [];
      entries := map[];
      dragState := Idle;
      effects := [];
    }

    /** `register`: a new container goes last; a registered one keeps its place and gets the new todos. */
    method Register(containerId: string, todos: seq<Todo>)
      requires Valid()
      modifies this
      ensures Valid()
      ensures entries == old(entries)[containerId := todos]
      ensures order == if containerId in old(order) then old(order) else old(order) + [containerId]
      ensures dragState == old(dragState) && effects == old(effects)
    {
      if containerId !in entries {
        order := order + [containerId];
      }
      entries := entries[containerId := todos];
    }

    /** `unregister`: removes that container only. */
    method Unregister(containerId: string)
      requires Valid()
      modifies this
      ensures Valid()
      ensures entries == old(entries) - {containerId}
      ensures order == Without(old(order), containerId)
      ensures dragState == old(dragState) && effects == old(effects)
    {
      order := Without(order, containerId);
      entries := entries - {containerId};
    }

    /** `findContainerForTodo`: scan the containers in registration order. */
    method FindContainerForTodo(todoId: string) returns (r: Option<string>)
      ensures r == FirstContaining(order, entries, todoId)
    {
      var i := 0;
      while i < |order|
        invariant i <= |order|
        invariant FirstIndex(order, entries, todoId, i) == FirstIndex(order, entries, todoId, 0)
      {
        if HasId(TodosOf(entries, order[i]), todoId) {
          return Some(order[i]);
        }
        i := i + 1;
      }
      return None;
    }

    /** `handleDragStart`: an id in no container (or in the container `""`) changes nothing; otherwise both sources become its container. */
    method HandleDragStart(activeId: string)
      requires Valid()
      modifies this
      ensures Valid()
      ensures var c := FirstContaining(order, entries, activeId);
        && (!Truthy(c) ==> dragState == old(dragState))
        && (Truthy(c) ==> dragState == DragState(Some(activeId), Find(TodosOf(entries, c.value), activeId), c, c))
        && (Truthy(c) ==> dragState.activeTodo.Some? && dragState.activeTodo.value.id == activeId)
      ensures order == old(order) && entries == old(entries) && effects == old(effects)
    {
      var source := FindContainerForTodo(activeId);
      if source.None? || source.value == "" {
        return;
      }
      var todo := Find(TodosOf(entries, source.value), activeId);
      dragState := DragState(Some(activeId), todo, source, source);
    }

    /** `handleDragOver`: nothing under the cursor clears the target; a known target replaces it; otherwise it stays. */
    method HandleDragOver(over: Option<string>)
      requires Valid()
      modifies this
      ensures Valid()
      ensures over.None? ==> dragState == old(dragState).(overSource := None)
      ensures over.Some? ==>
        dragState == (var t := DropTarget(order, entries, over.value);
                      if t.Some? then old(dragState).(overSource := t) else old(dragState))
      ensures order == old(order) && entries == old(entries) && effects == old(effects)
    {
      if over.None? {
        dragState := dragState.(overSource := None);
        return;
      }
      var overContainer := FindContainerForTodo(over.value);
      if (overContainer.None? || overContainer.value == "") && over.value in entries {
        overContainer := over;
      }
      if overContainer.Some? && overContainer.value != "" {
        dragState := dragState.(overSource := overContainer);
      }
    }

    /** `handleDragCancel`: back to idle, nothing issued. */
    method HandleDragCancel()
      requires Valid()
      modifies this
      ensures Valid()
      ensures dragState == Idle
      ensures order == old(order) && entries == old(entries) && effects == old(effects)
    {
      dragState := Idle;
    }

    /** `handleDragEnd`: back to idle first, then carry out the drop rule. */
    method HandleDragEnd(activeId: string, over: Option<string>)
      requires Valid()
      modifies this, cache
      ensures Valid()
      ensures dragState == Idle
      ensures var plan := PlanDrop(order, entries, old(dragState.activeSource), activeId, over);
        && cache.data == CacheAfter(old(cache.data), plan)
        && effects == old(effects) + EffectsOf(old(cache.data), plan)
      ensures order == old(order) && entries == old(entries)
      ensures cache.order == old(cache.order) && cache.invalidated == old(cache.invalidated)
    {
      ghost var plan := PlanDrop(order, entries, dragState.activeSource, activeId, over);
      var fromSource := dragState.activeSource;
      var todoId := activeId;
      dragState := Idle;
      if over.None? || fromSource.None? || fromSource.value == "" {
        return;
      }
      var overId := over.value;
      var toSource := FindContainerForTodo(overId);
      if (toSource.None? || toSource.value == "") && overId in entries {
        toSource := Some(overId);
      }
      if toSource.None? || toSource.value == "" {
        return;
      }
      if fromSource.value !in entries || toSource.value !in entries {
        return;
      }
      var fromTodos, toTodos := entries[fromSource.value], entries[toSource.value];
      if fromSource.value == toSource.value {
        if todoId == overId {
          return;
        }
        var oldIndex := FindIndex(fromTodos, todoId);
        var newIndex := FindIndex(fromTodos, overId);
        if oldIndex == -1 || newIndex == -1 {
          return;
        }
        var reordered := ArrayMove(fromTodos, oldIndex, newIndex);
        effects := effects + [ContainerReorder(fromSource.value, Ids(reordered))];
      } else {
        var todo := Find(fromTodos, todoId);
        if todo.None? {
          return;
        }
        var insertIndex := InsertIndex(toTodos, toSource.value, overId);
        MoveAcross(todo.value, fromSource.value, toSource.value, insertIndex);
      }
    }

    /** The source's optimistic write: its cached todos, if any, lose the dragged id. */
    method WriteSource(fromSource: string, todoId: string)
      requires Valid()
      modifies cache
      ensures Valid()
      ensures cache.data == SourceWritten(old(cache.data), fromSource, todoId)
      ensures cache.order == old(cache.order) && cache.invalidated == old(cache.invalidated)
    {
      var fromQueryKey := SourceToQueryKey(fromSource);
      var fromSnapshot := cache.GetQueryData(fromQueryKey);
      if fromSnapshot.Some? {
        cache.SetQueryData(fromQueryKey, fromSnapshot.value.WithTodos(RemoveTodos(fromSnapshot.value.todos, todoId)));
      }
    }

    /** The cross-container branch of `handleDragEnd`: the two optimistic cache writes, the move, and the follow-up reorder. */
    method MoveAcross(todo: Todo, fromSource: string, toSource: string, insertIndex: nat)
      requires Valid()
      modifies this, cache
      ensures Valid()
      ensures cache.data == CacheAfter(old(cache.data), CrossMove(todo, fromSource, toSource, insertIndex))
      ensures effects == old(effects) + EffectsOf(old(cache.data), CrossMove(todo, fromSource, toSource, insertIndex))
      ensures order == old(order) && entries == old(entries) && dragState == old(dragState)
      ensures cache.order == old(cache.order) && cache.invalidated == old(cache.invalidated)
    {
      var todoId := todo.id;
      WriteSource(fromSource, todoId);
      var toQueryKey := SourceToQueryKey(toSource);
      var toSnapshot := cache.GetQueryData(toQueryKey);
      if toSnapshot.Some? {
        cache.SetQueryData(toQueryKey, toSnapshot.value.WithTodos(InsertAt(toSnapshot.value.todos, insertIndex, todo)));
      }
      effects := effects + [MoveTodo(todoId, fromSource, toSource)];
      if toSnapshot.Some? && insertIndex != |toSnapshot.value.todos| {
        effects := effects + [ReorderTodo(toSource, InsertAt(Ids(toSnapshot.value.todos), insertIndex, todoId))];
      }
    }
  }

  /**
    Without a drop target or a drag in progress, with a source container `""`
    (falsy), with a target in no container or only in the container `""`, or
    with an unregistered source, a drop issues nothing.
   */
  lemma NoDropCases(order: seq<string>, entries: map<string, seq<Todo>>, fromSource: Option<string>, todoId: string, over: Option<string>)
    requires over.None? || fromSource.None? || fromSource == Some("") || DropTarget(order, entries, over.value).None?
      || fromSource.value !in entries
    ensures PlanDrop(order, entries, fromSource, todoId, over) == NoDrop
    ensures forall d :: EffectsOf(d, NoDrop) == []
  {
  }

  /**
    An item found only in the container `""` is in no container: dropped on
    it, with its own id not a registered container, a drag ends with nothing
    issued, and the container `""` is never a drop target.
   */
  lemma EmptyContainerIgnored(order: seq<string>, entries: map<string, seq<Todo>>, fromSource: Option<string>, todoId: string, overId: string)
    requires FirstContaining(order, entries, overId) == Some("") && overId !in entries
    ensures DropTarget(order, entries, overId).None?
    ensures PlanDrop(order, entries, fromSource, todoId, Some(overId)) == NoDrop
  {
  }

  /** Two containers `"src"` and `""`: dragging `a` of `"src"` onto `b` of `""` is no drop. */
  lemma EmptyContainerExample(a: Todo, b: Todo)
    requires a.id == "a" && b.id == "b"
    ensures FirstContaining(["src", ""], map["src" := [a], "" := [b]], "b") == Some("")
    ensures DropTarget(["src", ""], map["src" := [a], "" := [b]], "b").None?
    ensures PlanDrop(["src", ""], map["src" := [a], "" := [b]], Some("src"), "a", Some("b")) == NoDrop
  {
    var order, entries := ["src", ""], map["src" := [a], "" := [b]];
    assert !HasId(TodosOf(entries, order[0]), "b") by {
      assert TodosOf(entries, "src") == [a];
    }
    assert HasId(TodosOf(entries, order[1]), "b") by {
      assert TodosOf(entries, "") == [b];
      assert [b][0].id == "b";
    }
    assert FirstIndex(order, entries, "b", 1) == 1;
  }

  /**
    A drop on an empty registered container (its id is not an item of any
    container) from another registered container holding the dragged todo
    moves that todo to the end of it: the way a todo reaches an empty list.
   */
  lemma EmptyContainerDrop(order: seq<string>, entries: map<string, seq<Todo>>, fromSource: Option<string>, todoId: string, overId: string)
    requires Truthy(fromSource) && fromSource.value in entries && HasId(entries[fromSource.value], todoId)
    requires overId in entries && overId != "" && overId != fromSource.value
    requires forall j :: 0 <= j < |order| ==> !HasId(TodosOf(entries, order[j]), overId)
    ensures Find(entries[fromSource.value], todoId).Some?
    ensures PlanDrop(order, entries, fromSource, todoId, Some(overId))
      == CrossMove(Find(entries[fromSource.value], todoId).value, fromSource.value, overId, |entries[overId]|)
  {
    assert FirstContaining(order, entries, overId).None?;
  }

  /**
    A drop whose target resolves to another registered container, from a
    registered container holding the dragged todo, is a move of that todo
    between the two.
   */
  lemma CrossContainerDrop(order: seq<string>, entries: map<string, seq<Todo>>, fromSource: Option<string>, todoId: string, overId: string)
    requires Truthy(fromSource) && fromSource.value in entries && HasId(entries[fromSource.value], todoId)
    requires DropTarget(order, entries, overId).Some?
    requires DropTarget(order, entries, overId).value in entries
    requires DropTarget(order, entries, overId) != fromSource
    ensures var plan := PlanDrop(order, entries, fromSource, todoId, Some(overId));
      && plan.CrossMove? && plan.fromSource == fromSource.value
      && plan.toSource == DropTarget(order, entries, overId).value && plan.todo.id == todoId
  {
  }

  /**
    A drop on another item of the dragged todo's own container, when that
    container is where the target resolves, asks the container to reorder.
   */
  lemma SameContainerDrop(order: seq<string>, entries: map<string, seq<Todo>>, fromSource: Option<string>, todoId: string, overId: string)
    requires Truthy(fromSource) && fromSource.value in entries
    requires HasId(entries[fromSource.value], todoId) && HasId(entries[fromSource.value], overId) && todoId != overId
    requires DropTarget(order, entries, overId) == fromSource
    ensures PlanDrop(order, entries, fromSource, todoId, Some(overId)).SameReorder?
    ensures PlanDrop(order, entries, fromSource, todoId, Some(overId)).containerId == fromSource.value
  {
  }

  /** Dropping an item on itself issues nothing. */
  lemma DropOnSelf(order: seq<string>, entries: map<string, seq<Todo>>, fromSource: Option<string>, todoId: string)
    requires fromSource.Some? && DropTarget(order, entries, todoId) == fromSource
    ensures PlanDrop(order, entries, fromSource, todoId, Some(todoId)) == NoDrop
  {
  }

  /**
    A drop within one container asks that container to reorder its ids by
    `arrayMove`: a permutation of its ids with the dragged id at the target's
    old position.
   */
  lemma SameReorderPermutes(order: seq<string>, entries: map<string, seq<Todo>>, fromSource: Option<string>, todoId: string, over: Option<string>)
    requires PlanDrop(order, entries, fromSource, todoId, over).SameReorder?
    ensures var plan := PlanDrop(order, entries, fromSource, todoId, over);
      && fromSource == Some(plan.containerId) && plan.containerId in entries
      && over.Some? && over.value != todoId
      && multiset(plan.ids) == multiset(Ids(entries[plan.containerId]))
      && plan.ids[FindIndex(entries[plan.containerId], over.value)] == todoId
  {
    var c := fromSource.value;
    var todos := entries[c];
    var oldIndex, newIndex := FindIndex(todos, todoId), FindIndex(todos, over.value);
    MovedIdsPermute(todos, oldIndex, newIndex);
    IdsArrayMove(todos, oldIndex, newIndex);
  }

  /**
    A drop on another container moves the dragged todo of the source into the
    destination, at the target item's index when the target is an item found
    there, and at the end otherwise.
   */
  lemma CrossMoveTarget(order: seq<string>, entries: map<string, seq<Todo>>, fromSource: Option<string>, todoId: string, over: Option<string>)
    requires PlanDrop(order, entries, fromSource, todoId, over).CrossMove?
    ensures var plan := PlanDrop(order, entries, fromSource, todoId, over);
      && fromSource == Some(plan.fromSource) && plan.fromSource != plan.toSource
      && plan.fromSource in entries && plan.toSource in entries
      && plan.todo.id == todoId && plan.todo in entries[plan.fromSource]
      && plan.insertIndex <= |entries[plan.toSource]|
      && (over.value != plan.toSource && HasId(entries[plan.toSource], over.value) ==>
            entries[plan.toSource][plan.insertIndex].id == over.value)
      && (over.value == plan.toSource || !HasId(entries[plan.toSource], over.value) ==>
            plan.insertIndex == |entries[plan.toSource]|)
  {
  }

  /** After a cross-container drop, the source's cached todos, if any, are its old ones less every copy of the dragged id. */
  lemma CrossMoveSource(d: map<QueryKey, Collection>, todo: Todo, from: string, to: string, insertIndex: nat)
    requires SourceToQueryKey(from) != SourceToQueryKey(to) && SourceToQueryKey(from) in d
    ensures var r := CacheAfter(d, CrossMove(todo, from, to, insertIndex));
      && r[SourceToQueryKey(from)].todos == RemoveTodos(d[SourceToQueryKey(from)].todos, todo.id)
      && !HasId(r[SourceToQueryKey(from)].todos, todo.id)
  {
  }

  /** After a cross-container drop, the destination's cached todos, if any, hold the todo at the insert index (or at the end). */
  lemma CrossMoveDestination(d: map<QueryKey, Collection>, todo: Todo, from: string, to: string, insertIndex: nat)
    requires SourceToQueryKey(from) != SourceToQueryKey(to) && SourceToQueryKey(to) in d
    ensures var r := CacheAfter(d, CrossMove(todo, from, to, insertIndex));
      var old_ := d[SourceToQueryKey(to)].todos;
      var k := if insertIndex < |old_| then insertIndex else |old_|;
      && r[SourceToQueryKey(to)].todos == InsertAt(old_, insertIndex, todo)
      && r[SourceToQueryKey(to)].todos[k] == todo
      && r[SourceToQueryKey(to)].todos[..k] == old_[..k]
      && r[SourceToQueryKey(to)].todos[k + 1..] == old_[k..]
  {
    var tk := SourceToQueryKey(to);
    InsertAtSpec(d[tk].todos, insertIndex, todo);
  }

  /** A cross-container drop writes no cache entry other than the two sources', and creates none. */
  lemma CrossMoveFrame(d: map<QueryKey, Collection>, todo: Todo, from: string, to: string, insertIndex: nat, k: QueryKey)
    requires k != SourceToQueryKey(from) && k != SourceToQueryKey(to)
    ensures var r := CacheAfter(d, CrossMove(todo, from, to, insertIndex));
      r.Keys == d.Keys && (k in d ==> r[k] == d[k])
  {
  }

  /**
    A cross-container drop always issues the move, then a follow-up reorder
    exactly when the destination is cached and the insert index is not its
    length.
   */
  lemma FollowUpIssued(d: map<QueryKey, Collection>, todo: Todo, from: string, to: string, insertIndex: nat)
    requires SourceToQueryKey(from) != SourceToQueryKey(to)
    ensures var es := EffectsOf(d, CrossMove(todo, from, to, insertIndex));
      var tk := SourceToQueryKey(to);
      && 1 <= |es| <= 2
      && es[0] == MoveTodo(todo.id, from, to)
      && (|es| == 2 <==> tk in d && insertIndex != |d[tk].todos|)
  {
  }

  /** The follow-up reorder lists the destination's cached ids with the dragged id spliced in at the insert index. */
  lemma FollowUpIds(d: map<QueryKey, Collection>, todo: Todo, from: string, to: string, insertIndex: nat)
    requires SourceToQueryKey(from) != SourceToQueryKey(to)
    requires SourceToQueryKey(to) in d && insertIndex < |d[SourceToQueryKey(to)].todos|
    ensures var es := EffectsOf(d, CrossMove(todo, from, to, insertIndex));
      var ids := Ids(d[SourceToQueryKey(to)].todos);
      && |es| == 2 && es[1] == ReorderTodo(to, InsertAt(ids, insertIndex, todo.id))
      && multiset(es[1].todoIds) == multiset(ids) + multiset{todo.id}
      && es[1].todoIds[insertIndex] == todo.id
      && es[1].todoIds[..insertIndex] == ids[..insertIndex]
      && es[1].todoIds[insertIndex + 1..] == ids[insertIndex..]
  {
    InsertAtSpec(Ids(d[SourceToQueryKey(to)].todos), insertIndex, todo.id);
  }
}

/**
  The notebook column: the todos of one container drawn as ruled lines,
  followed by empty lines. Clicking an empty line opens an input there; Enter
  or leaving the input creates a todo from the trimmed text, and a drag within
  the column asks for a reorder. The callbacks the column receives are
  recorded, in order, as the calls it makes.
 */
module NotebookColumn {
  import opened Wrappers
  import opened Strings
  import opened Types
  import opened ArrayOps

  /** The fewest lines the column shows when it is not told how many empty lines to draw. */
  const DefaultMinLines := 10

  function Max(a: int, b: int): int {
    if a >= b then a else b
  }

  /**
    `emptyLinesProp ?? max(10 - n, 1)`: a given count is used as it is (even
    0); otherwise there is always at least one empty line and at least ten
    lines in all.
   */
  function EmptyLines(prop: Option<int>, count: nat): (r: int)
    ensures prop.Some? ==> r == prop.value
    ensures prop.None? ==> r >= 1 && count + r == Max(DefaultMinLines, count + 1)
    ensures prop.None? && count < DefaultMinLines ==> count + r == DefaultMinLines
    ensures prop.None? && count >= DefaultMinLines ==> r == 1
  {
    if prop.Some? then prop.value else Max(DefaultMinLines - count, 1)
  }

  /** The text a non-blank input creates: the input trimmed. */
  function Created(input: string): (r: Option<string>)
    ensures r.None? <==> IsBlank(input)
  {
    TrimSpec(input);
    if Trim(input) != [] then Some(Trim(input)) else None
  }

  /** Whatever the input, the text it creates is tidy. */
  lemma CreatedTidy(input: string)
    requires Created(input).Some?
    ensures Tidy(Created(input).value)
    ensures Created(Created(input).value) == Created(input)
  {
    TrimmedTidy(input);
  }

  /**
    The ids a drop hands to `onReorderTodos`: nothing without a target, on
    itself, without a callback, or when either id is not in the column;
    otherwise the column's ids moved by `arrayMove`.
   */
  function DragReorder(todos: seq<Todo>, activeId: string, over: Option<string>, hasCallback: bool): Option<seq<string>> {
    if over.None? || activeId == over.value || !hasCallback then None
    else
      var oldIndex, newIndex := FindIndex(todos, activeId), FindIndex(todos, over.value);
      if oldIndex == -1 || newIndex == -1 then None
      else Some(Ids(ArrayMove(todos, oldIndex, newIndex)))
  }

  /**
    A reorder is asked for exactly when there is another target, a callback,
    and both ids are in the column; the ids asked for are the column's ids,
    each kept, with the dragged one at the target's index.
   */
  lemma DragReorderSpec(todos: seq<Todo>, activeId: string, over: Option<string>, hasCallback: bool)
    ensures var r := DragReorder(todos, activeId, over, hasCallback);
      r.Some? <==>
        over.Some? && over.value != activeId && hasCallback && HasId(todos, activeId) && HasId(todos, over.value)
    ensures var r := DragReorder(todos, activeId, over, hasCallback);
      r.Some? ==>
        && multiset(r.value) == multiset(Ids(todos))
        && r.value[FindIndex(todos, over.value)] == activeId
  {
    if DragReorder(todos, activeId, over, hasCallback).Some? {
      var oldIndex, newIndex := FindIndex(todos, activeId), FindIndex(todos, over.value);
      MovedIdsPermute(todos, oldIndex, newIndex);
      IdsArrayMove(todos, oldIndex, newIndex);
    }
  }

  /** A callback the column makes. */
  datatype Call = CreateTodo(text: string) | ReorderTodos(todoIds: seq<string>)

  class Column {
    /** The empty line whose input is open, if any. */
    var activeLineIndex: Option<int>
    var inputText: string
    /** The callbacks made so far. */
    var calls: seq<Call>

    /** A closed column holds no pending text, and every todo created has a tidy text. */
    ghost predicate Valid()
      reads this
    {
      && (activeLineIndex.None? ==> IsBlank(inputText))
      && forall i :: 0 <= i < |calls| ==> calls[i].CreateTodo? ==> Tidy(calls[i].text)
    }

    constructor ()
      ensures Valid()
      ensures activeLineIndex == None && inputText == "" && calls == []
    {
      activeLineIndex := None;
      inputText := "";
      calls := [];
    }

    /** `handleLineClick`: open the clicked line with an empty input. */
    method HandleLineClick(lineIndex: int)
      requires Valid()
      modifies this
      ensures Valid()
      ensures activeLineIndex == Some(lineIndex) && inputText == "" && calls == old(calls)
    {
      activeLineIndex := Some(lineIndex);
      inputText := "";
    }

    /** Typing in the open input. */
    method OnChange(value: string)
      requires Valid() && activeLineIndex.Some?
      modifies this
      ensures Valid()
      ensures inputText == value && activeLineIndex == old(activeLineIndex) && calls == old(calls)
    {
      inputText := value;
    }

    /** Record a callback; a creation must carry a tidy text. */
    method Record(call: Call)
      requires Valid() && (call.CreateTodo? ==> Tidy(call.text))
      modifies this
      ensures Valid()
      ensures calls == old(calls) + [call]
      ensures inputText == old(inputText) && activeLineIndex == old(activeLineIndex)
    {
      calls := calls + [call];
    }

    /** Enter on text: create it, clear the input and open the next line. */
    method Submit()
      requires Valid() && Created(inputText).Some?
      modifies this
      ensures Valid()
      ensures calls == old(calls) + [CreateTodo(Created(old(inputText)).value)]
      ensures inputText == ""
      ensures activeLineIndex == (if old(activeLineIndex).Some? then Some(old(activeLineIndex).value + 1) else None)
    {
      var next := if activeLineIndex.Some? then Some(activeLineIndex.value + 1) else None;
      CreatedTidy(inputText);
      Record(CreateTodo(Created(inputText).value));
      inputText, activeLineIndex := "", next;
    }

    /**
      Enter in the open input: text is created, the input cleared and the
      next line opened; a blank input closes the line and is left as it is.
     */
    method HandleEnter()
      requires Valid()
      modifies this
      ensures Valid()
      ensures Created(old(inputText)).Some? ==>
        && calls == old(calls) + [CreateTodo(Created(old(inputText)).value)]
        && inputText == ""
        && activeLineIndex == (if old(activeLineIndex).Some? then Some(old(activeLineIndex).value + 1) else None)
      ensures Created(old(inputText)).None? ==>
        calls == old(calls) && inputText == old(inputText) && activeLineIndex == None
    {
      if Created(inputText).Some? {
        Submit();
      } else {
        activeLineIndex := None;
      }
    }

    /**
      `handleKeyDown`: Enter as `HandleEnter`; Escape closes the line and
      clears the input; any other key does nothing.
     */
    method HandleKeyDown(key: string)
      requires Valid()
      modifies this
      ensures Valid()
      ensures key == "Enter" && Created(old(inputText)).Some? ==>
        && calls == old(calls) + [CreateTodo(Created(old(inputText)).value)]
        && inputText == ""
        && activeLineIndex == (if old(activeLineIndex).Some? then Some(old(activeLineIndex).value + 1) else None)
      ensures key == "Enter" && Created(old(inputText)).None? ==>
        calls == old(calls) && inputText == old(inputText) && activeLineIndex == None
      ensures key == "Escape" ==>
        calls == old(calls) && inputText == "" && activeLineIndex == None
      ensures key != "Enter" && key != "Escape" ==>
        calls == old(calls) && inputText == old(inputText) && activeLineIndex == old(activeLineIndex)
    {
      if key == "Enter" {
        HandleEnter();
      } else if key == "Escape" {
        activeLineIndex := None;
        inputText := "";
      }
    }

    /** `handleBlur`: create the trimmed input when it is not blank, then close and clear. */
    method HandleBlur()
      requires Valid()
      modifies this
      ensures Valid()
      ensures calls == old(calls) + (if Created(old(inputText)).Some? then [CreateTodo(Created(old(inputText)).value)] else [])
      ensures activeLineIndex == None && inputText == ""
    {
      if Created(inputText).Some? {
        CreatedTidy(inputText);
        Record(CreateTodo(Created(inputText).value));
      }
      activeLineIndex := None;
      inputText := "";
    }

    /** `handleDragEnd`: ask for the reorder `DragReorder` names, if any. */
    method HandleDragEnd(todos: seq<Todo>, activeId: string, over: Option<string>, hasCallback: bool)
      requires Valid()
      modifies this
      ensures Valid()
      ensures var r := DragReorder(todos, activeId, over, hasCallback);
        calls == old(calls) + (if r.Some? then [ReorderTodos(r.value)] else [])
      ensures inputText == old(inputText) && activeLineIndex == old(activeLineIndex)
    {
      if over.None? || activeId == over.value || !hasCallback {
        return;
      }
      var oldIndex := FindIndex(todos, activeId);
      var newIndex := FindIndex(todos, over.value);
      if oldIndex == -1 || newIndex == -1 {
        return;
      }
      var reordered := ArrayMove(todos, oldIndex, newIndex);
      Record(ReorderTodos(Ids(reordered)));
    }
  }
}

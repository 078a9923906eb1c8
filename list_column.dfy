/**
  The column of one list: a notebook column under a header holding the list's
  name, which turns into an input when clicked, optional buttons that move
  the list one place left or right, and a delete button that only opens a
  confirmation dialog. The callbacks the column makes are recorded, in order.
 */
module ListColumn {
  import opened Wrappers
  import opened Strings
  import opened Types
  import TodoItem

  /** A callback the header makes; a move is -1 (up or left) or 1 (down or right). */
  datatype Call = UpdateListName(name: string) | DeleteList | MoveList(direction: int)

  /**
    The name `saveName` sends, if any: as for a todo's text, the trimmed name
    when it is not empty and not the current name, and only when there is a
    callback to send it to.
   */
  function Renamed(nameText: string, current: string, hasCallback: bool): (r: Option<string>)
    ensures r.Some? <==> hasCallback && !IsBlank(nameText) && Trim(nameText) != current
    ensures r.Some? ==> Tidy(r.value) && r.value != current && r.value == Trim(nameText)
  {
    if hasCallback then TodoItem.SavedText(nameText, current) else None
  }

  /** Whether the move button for `direction` can be pressed: it is drawn only with a callback, and disabled at that end. */
  predicate MoveEnabled(direction: int, isFirst: bool, isLast: bool, hasCallback: bool) {
    hasCallback && (direction == -1 ==> !isFirst) && (direction == 1 ==> !isLast)
  }

  class Column {
    var editingName: bool
    var nameText: string
    var confirmDelete: bool
    /** The callbacks made so far. */
    var calls: seq<Call>

    /** Every name sent is tidy, and every move is one place. */
    ghost predicate Valid()
      reads this
    {
      forall i :: 0 <= i < |calls| ==>
        && (calls[i].UpdateListName? ==> Tidy(calls[i].name))
        && (calls[i].MoveList? ==> calls[i].direction == -1 || calls[i].direction == 1)
    }

    /** The header starts closed, with the list's name ready in the editor, and no dialog. */
    constructor (list: TodoList)
      ensures Valid()
      ensures !editingName && nameText == list.name && !confirmDelete && calls == []
    {
      editingName := false;
      nameText := list.name;
      confirmDelete := false;
      calls := [];
    }

    method Record(call: Call)
      requires Valid()
      requires call.UpdateListName? ==> Tidy(call.name)
      requires call.MoveList? ==> call.direction == -1 || call.direction == 1
      modifies this
      ensures Valid()
      ensures calls == old(calls) + [call]
      ensures editingName == old(editingName) && nameText == old(nameText) && confirmDelete == old(confirmDelete)
    {
      calls := calls + [call];
    }

    /** A click on the name: open the editor on the list's name. */
    method ClickHeader(list: TodoList)
      requires Valid()
      modifies this
      ensures Valid()
      ensures editingName && nameText == list.name
      ensures confirmDelete == old(confirmDelete) && calls == old(calls)
    {
      nameText := list.name;
      editingName := true;
    }

    /** Typing in the open editor. */
    method OnChange(value: string)
      requires Valid() && editingName
      modifies this
      ensures Valid()
      ensures editingName && nameText == value
      ensures confirmDelete == old(confirmDelete) && calls == old(calls)
    {
      nameText := value;
    }

    /** `saveName`: send the new name, if any, and close the editor, whatever happened. */
    method SaveName(list: TodoList, hasCallback: bool)
      requires Valid()
      modifies this
      ensures Valid()
      ensures var r := Renamed(old(nameText), list.name, hasCallback);
        calls == old(calls) + (if r.Some? then [UpdateListName(r.value)] else [])
      ensures !editingName && nameText == old(nameText) && confirmDelete == old(confirmDelete)
    {
      var trimmed := Renamed(nameText, list.name, hasCallback);
      if trimmed.Some? {
        Record(UpdateListName(trimmed.value));
      }
      editingName := false;
    }

    /** `handleNameKeyDown`: Enter saves; Escape puts the list's name back and closes, sending nothing. */
    method HandleNameKeyDown(list: TodoList, hasCallback: bool, key: string)
      requires Valid()
      modifies this
      ensures Valid()
      ensures key == "Enter" ==>
        var r := Renamed(old(nameText), list.name, hasCallback);
        && calls == old(calls) + (if r.Some? then [UpdateListName(r.value)] else [])
        && !editingName && nameText == old(nameText)
      ensures key == "Escape" ==> !editingName && nameText == list.name && calls == old(calls)
      ensures key != "Enter" && key != "Escape" ==>
        editingName == old(editingName) && nameText == old(nameText) && calls == old(calls)
      ensures confirmDelete == old(confirmDelete)
    {
      if key == "Enter" {
        SaveName(list, hasCallback);
      }
      if key == "Escape" {
        nameText := list.name;
        editingName := false;
      }
    }

    /** A move button: a press on an enabled button asks to move the list one place that way. */
    method PressMove(direction: int, isFirst: bool, isLast: bool, hasCallback: bool)
      requires Valid() && (direction == -1 || direction == 1)
      modifies this
      ensures Valid()
      ensures calls == old(calls) + (if MoveEnabled(direction, isFirst, isLast, hasCallback) then [MoveList(direction)] else [])
      ensures editingName == old(editingName) && nameText == old(nameText) && confirmDelete == old(confirmDelete)
    {
      if MoveEnabled(direction, isFirst, isLast, hasCallback) {
        Record(MoveList(direction));
      }
    }

    /** The delete button (drawn only when the list can be deleted): open the dialog, nothing more. */
    method ClickDelete()
      requires Valid()
      modifies this
      ensures Valid()
      ensures confirmDelete
      ensures editingName == old(editingName) && nameText == old(nameText) && calls == old(calls)
    {
      confirmDelete := true;
    }

    /** The dialog asks to change its open state: closing it clears the flag; opening is ignored. */
    method OnOpenChange(open: bool)
      requires Valid()
      modifies this
      ensures Valid()
      ensures confirmDelete == (old(confirmDelete) && open)
      ensures editingName == old(editingName) && nameText == old(nameText) && calls == old(calls)
    {
      if !open {
        confirmDelete := false;
      }
    }

    /** The dialog's Delete action: ask for the deletion once, when there is a callback, and clear the flag. */
    method Confirm(hasCallback: bool)
      requires Valid() && confirmDelete
      modifies this
      ensures Valid()
      ensures calls == old(calls) + (if hasCallback then [DeleteList] else [])
      ensures !confirmDelete
      ensures editingName == old(editingName) && nameText == old(nameText)
    {
      if hasCallback {
        Record(DeleteList);
      }
      confirmDelete := false;
    }
  }
}

/**
  One todo row: a checkbox that flips the todo's completion, the text that
  turns into an input when clicked, and a delete button. Saving an edit sends
  the trimmed text when it is not empty and differs from the todo's text;
  cancelling puts the todo's text back. The callbacks the row makes are
  recorded, in order.
 */
module TodoItem {
  import opened Wrappers
  import opened Strings
  import opened Types
  import opened UseTodos

  /** A callback the row makes. */
  datatype Call = Update(id: string, patch: Patch) | Delete(id: string)

  /** The text `saveEdit` sends, if any: the trimmed edit, when it is not empty and not the current text. */
  function SavedText(editText: string, current: string): (r: Option<string>)
    ensures r.Some? <==> !IsBlank(editText) && Trim(editText) != current
    ensures r.Some? ==> Tidy(r.value) && r.value != current && Trim(editText) == r.value
  {
    TrimSpec(editText);
    if !IsBlank(editText) then TrimmedTidy(editText); (if Trim(editText) != current then Some(Trim(editText)) else None)
    else None
  }

  /** Opening the editor on a todo whose text is already trimmed and saving at once sends nothing. */
  lemma SaveUnchanged(t: Todo)
    requires Trim(t.text) == t.text
    ensures SavedText(t.text, t.text).None?
  {
  }

  /** The patch the checkbox sends: the opposite of the todo's completion, and nothing else. */
  function TogglePatch(t: Todo): (p: Patch)
    ensures p.text.None? && p.completed == Some(!t.completed)
  {
    Patch(None, Some(!t.completed))
  }

  /**
    Applied to the todo, the checkbox's patch flips its completion and keeps
    the rest; a second click flips it back.
   */
  lemma ToggleTwice(t: Todo)
    ensures ApplyPatch(t, TogglePatch(t)) == t.(completed := !t.completed)
    ensures ApplyPatch(ApplyPatch(t, TogglePatch(t)), TogglePatch(ApplyPatch(t, TogglePatch(t)))) == t
  {
  }

  /** Applied to the todo, a saved edit changes its text to the sent text and nothing else. */
  lemma SaveApplied(t: Todo, editText: string)
    requires SavedText(editText, t.text).Some?
    ensures var p := Patch(SavedText(editText, t.text), None);
      ApplyPatch(t, p) == t.(text := Trim(editText)) && ApplyPatch(t, p) != t
  {
  }

  class Item {
    /** The id of the todo the row shows (the row is keyed by it). */
    const id: string
    var editing: bool
    var editText: string
    /** The callbacks made so far. */
    var calls: seq<Call>

    /** Every callback names the row's todo, and every text sent is tidy. */
    ghost predicate Valid()
      reads this
    {
      forall i :: 0 <= i < |calls| ==>
        && calls[i].id == id
        && (calls[i].Update? && calls[i].patch.text.Some? ==> Tidy(calls[i].patch.text.value))
    }

    /** The row starts closed, with the todo's text ready in the editor. */
    constructor (todo: Todo)
      ensures Valid()
      ensures id == todo.id && !editing && editText == todo.text && calls == []
    {
      id := todo.id;
      editing := false;
      editText := todo.text;
      calls := [];
    }

    method Record(call: Call)
      requires Valid() && call.id == id
      requires call.Update? && call.patch.text.Some? ==> Tidy(call.patch.text.value)
      modifies this
      ensures Valid()
      ensures calls == old(calls) + [call]
      ensures editing == old(editing) && editText == old(editText)
    {
      calls := calls + [call];
    }

    /** `startEdit`: open the editor on the todo's current text. */
    method StartEdit(todo: Todo)
      requires Valid() && todo.id == id
      modifies this
      ensures Valid()
      ensures editing && editText == todo.text && calls == old(calls)
    {
      editText := todo.text;
      editing := true;
    }

    /** Typing in the open editor. */
    method OnChange(value: string)
      requires Valid() && editing
      modifies this
      ensures Valid()
      ensures editing && editText == value && calls == old(calls)
    {
      editText := value;
    }

    /** `saveEdit`: send the saved text, if any, and close the editor, whatever happened. */
    method SaveEdit(todo: Todo)
      requires Valid() && todo.id == id
      modifies this
      ensures Valid()
      ensures var s := SavedText(old(editText), todo.text);
        calls == old(calls) + (if s.Some? then [Update(id, Patch(s, None))] else [])
      ensures !editing && editText == old(editText)
    {
      var trimmed := SavedText(editText, todo.text);
      if trimmed.Some? {
        Record(Update(todo.id, Patch(trimmed, None)));
      }
      editing := false;
    }

    /** `cancelEdit`: put the todo's text back and close the editor, sending nothing. */
    method CancelEdit(todo: Todo)
      requires Valid() && todo.id == id
      modifies this
      ensures Valid()
      ensures !editing && editText == todo.text && calls == old(calls)
    {
      editText := todo.text;
      editing := false;
    }

    /** `handleKeyDown`: Enter saves, Escape cancels, any other key does nothing. */
    method HandleKeyDown(todo: Todo, key: string)
      requires Valid() && todo.id == id
      modifies this
      ensures Valid()
      ensures key == "Enter" ==>
        var s := SavedText(old(editText), todo.text);
        && calls == old(calls) + (if s.Some? then [Update(id, Patch(s, None))] else [])
        && !editing && editText == old(editText)
      ensures key == "Escape" ==> !editing && editText == todo.text && calls == old(calls)
      ensures key != "Enter" && key != "Escape" ==>
        editing == old(editing) && editText == old(editText) && calls == old(calls)
    {
      if key == "Enter" {
        SaveEdit(todo);
      }
      if key == "Escape" {
        CancelEdit(todo);
      }
    }

    /** The checkbox: send the flipped completion. */
    method Toggle(todo: Todo)
      requires Valid() && todo.id == id
      modifies this
      ensures Valid()
      ensures calls == old(calls) + [Update(id, TogglePatch(todo))]
      ensures editing == old(editing) && editText == old(editText)
    {
      Record(Update(todo.id, Patch(None, Some(!todo.completed))));
    }

    /** The delete button: ask for the deletion at once, with no confirmation. */
    method Delete(todo: Todo)
      requires Valid() && todo.id == id
      modifies this
      ensures Valid()
      ensures calls == old(calls) + [Call.Delete(id)]
      ensures editing == old(editing) && editText == old(editText)
    {
      Record(Call.Delete(todo.id));
    }
  }
}

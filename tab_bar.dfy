/**
  The tab bar: one button per tab, the one whose id is the active tab's
  marked active; a click selects a tab, a double click turns its name into an
  input, and a last button adds a tab. Saving a rename sends the trimmed name
  whenever it is not empty. The callbacks the bar makes are recorded, in
  order; it never asks to delete a tab.
 */
module TabBar {
  import opened Wrappers
  import opened Strings
  import opened Types

  /** A callback the bar makes. */
  datatype Call = SelectTab(id: string) | CreateTab | UpdateTab(id: string, name: string)

  /**
    The rename `saveEdit` sends, if any: a tab is being edited (an empty id
    counts as none, as it is falsy) and the trimmed text is not empty. There is
    no check against the tab's current name.
   */
  function Rename(editingId: Option<string>, editText: string): (r: Option<(string, string)>)
    ensures r.Some? <==> editingId.Some? && editingId.value != "" && !IsBlank(editText)
    ensures r.Some? ==> r.value.0 == editingId.value && Tidy(r.value.1) && r.value.1 == Trim(editText)
  {
    TrimSpec(editText);
    if editingId.Some? && editingId.value != "" && !IsBlank(editText)
    then TrimmedTidy(editText); Some((editingId.value, Trim(editText)))
    else None
  }

  /** For each tab, whether its id is `id` (`null` matches no tab). */
  function Marked(tabs: seq<Tab>, id: Option<string>): (flags: seq<bool>)
    ensures |flags| == |tabs|
    ensures forall i :: 0 <= i < |tabs| ==> (flags[i] <==> id == Some(tabs[i].id))
  {
    if tabs == [] then [] else [id == Some(tabs[0].id)] + Marked(tabs[1..], id)
  }

  function CountTrue(flags: seq<bool>): nat {
    if flags == [] then 0 else (if flags[0] then 1 else 0) + CountTrue(flags[1..])
  }

  predicate DistinctTabIds(tabs: seq<Tab>) {
    forall i, j :: 0 <= i < j < |tabs| ==> tabs[i].id != tabs[j].id
  }

  /** With distinct ids, at most one tab is marked, and exactly one when the id is among them. */
  lemma {:induction false} MarkedCount(tabs: seq<Tab>, id: Option<string>)
    requires DistinctTabIds(tabs)
    ensures CountTrue(Marked(tabs, id)) <= 1
    ensures (exists i :: 0 <= i < |tabs| && id == Some(tabs[i].id)) ==> CountTrue(Marked(tabs, id)) == 1
    decreases |tabs|
  {
    if tabs != [] {
      var rest := tabs[1..];
      assert DistinctTabIds(rest) by {
        forall i, j | 0 <= i < j < |rest|
          ensures rest[i].id != rest[j].id
        {
          assert rest[i] == tabs[i + 1] && rest[j] == tabs[j + 1];
        }
      }
      MarkedCount(rest, id);
      assert Marked(tabs, id)[1..] == Marked(rest, id);
      if id == Some(tabs[0].id) {
        NoneMarked(rest, id);
      } else if exists i :: 0 <= i < |tabs| && id == Some(tabs[i].id) {
        var i :| 0 <= i < |tabs| && id == Some(tabs[i].id);
        assert rest[i - 1] == tabs[i];
      }
    }
  }

  /** A tab list in which no id is `id` marks nothing. */
  lemma {:induction false} NoneMarked(tabs: seq<Tab>, id: Option<string>)
    requires forall i :: 0 <= i < |tabs| ==> id != Some(tabs[i].id)
    ensures CountTrue(Marked(tabs, id)) == 0
    decreases |tabs|
  {
    if tabs != [] {
      assert Marked(tabs, id)[1..] == Marked(tabs[1..], id);
      NoneMarked(tabs[1..], id);
    }
  }

  /**
    With distinct tab ids, exactly the active tab is marked active when it is
    among the tabs, and at most one tab shows the editor.
   */
  lemma OneActive(tabs: seq<Tab>, activeTabId: string, editingId: Option<string>)
    requires DistinctTabIds(tabs)
    ensures (exists i :: 0 <= i < |tabs| && tabs[i].id == activeTabId) ==> CountTrue(Marked(tabs, Some(activeTabId))) == 1
    ensures CountTrue(Marked(tabs, editingId)) <= 1
  {
    MarkedCount(tabs, Some(activeTabId));
    MarkedCount(tabs, editingId);
  }

  class Bar {
    var editingId: Option<string>
    var editText: string
    /** The callbacks made so far. */
    var calls: seq<Call>

    /** Every rename names a tab and carries a tidy name. */
    ghost predicate Valid()
      reads this
    {
      forall i :: 0 <= i < |calls| ==> calls[i].UpdateTab? ==> calls[i].id != "" && Tidy(calls[i].name)
    }

    constructor ()
      ensures Valid()
      ensures editingId == None && editText == "" && calls == []
    {
      editingId := None;
      editText := "";
      calls := [];
    }

    method Record(call: Call)
      requires Valid() && (call.UpdateTab? ==> call.id != "" && Tidy(call.name))
      modifies this
      ensures Valid()
      ensures calls == old(calls) + [call]
      ensures editingId == old(editingId) && editText == old(editText)
    {
      calls := calls + [call];
    }

    /** A click on a tab selects it. */
    method Click(tab: Tab)
      requires Valid()
      modifies this
      ensures Valid()
      ensures calls == old(calls) + [SelectTab(tab.id)]
      ensures editingId == old(editingId) && editText == old(editText)
    {
      Record(SelectTab(tab.id));
    }

    /** The add button. */
    method ClickAdd()
      requires Valid()
      modifies this
      ensures Valid()
      ensures calls == old(calls) + [CreateTab]
      ensures editingId == old(editingId) && editText == old(editText)
    {
      Record(CreateTab);
    }

    /** `startEdit`, on a double click: exactly that tab shows the editor, seeded with its name. */
    method StartEdit(tab: Tab)
      requires Valid()
      modifies this
      ensures Valid()
      ensures editingId == Some(tab.id) && editText == tab.name && calls == old(calls)
    {
      editingId := Some(tab.id);
      editText := tab.name;
    }

    /** Typing in the open editor. */
    method OnChange(value: string)
      requires Valid() && editingId.Some?
      modifies this
      ensures Valid()
      ensures editText == value && editingId == old(editingId) && calls == old(calls)
    {
      editText := value;
    }

    /** `saveEdit`: send the rename, if any, and close the editor, whatever happened. */
    method SaveEdit()
      requires Valid()
      modifies this
      ensures Valid()
      ensures var r := Rename(old(editingId), old(editText));
        calls == old(calls) + (if r.Some? then [UpdateTab(r.value.0, r.value.1)] else [])
      ensures editingId == None && editText == old(editText)
    {
      var r := Rename(editingId, editText);
      if r.Some? {
        Record(UpdateTab(r.value.0, r.value.1));
      }
      editingId := None;
    }

    /** `handleKeyDown`: Enter saves; Escape closes the editor, sending nothing. */
    method HandleKeyDown(key: string)
      requires Valid()
      modifies this
      ensures Valid()
      ensures key == "Enter" ==>
        var r := Rename(old(editingId), old(editText));
        && calls == old(calls) + (if r.Some? then [UpdateTab(r.value.0, r.value.1)] else [])
        && editingId == None
      ensures key == "Escape" ==> editingId == None && calls == old(calls)
      ensures key != "Enter" && key != "Escape" ==> editingId == old(editingId) && calls == old(calls)
      ensures editText == old(editText)
    {
      if key == "Enter" {
        SaveEdit();
      }
      if key == "Escape" {
        editingId := None;
      }
    }
  }
}

/**
  The `/api/tabs` route: GET returns the tabs and seeds the three default
  tabs when there are none; POST appends a tab whose `sortOrder` is one more
  than the largest one stored. The new tab's id comes from `generateId`,
  which is a parameter here.
 */
module TabsRoute {
  import opened Wrappers
  import opened Types
  import opened Storage

  /** The tabs a fresh store is seeded with. */
  const DefaultTabs: seq<Tab> := [
    Tab("underlying", "UNDERLYING", 0),
    Tab("thoughts", "THOUGHTS", 1),
    Tab("planning", "PLANNING", 2)
  ]

  /** The GET handler seeds when the key is absent or holds an empty array. */
  predicate NeedsSeed(stored: Option<seq<Tab>>) {
    stored.None? || stored.value == []
  }

  /** What GET returns for the stored value. */
  function Listed(stored: Option<seq<Tab>>): (r: seq<Tab>)
    ensures r != []
    ensures NeedsSeed(stored) ==> r == DefaultTabs
    ensures !NeedsSeed(stored) ==> Some(r) == stored
  {
    if NeedsSeed(stored) then DefaultTabs else stored.value
  }

  /** The stored value after GET. */
  function AfterGet(stored: Option<seq<Tab>>): Option<seq<Tab>> {
    if NeedsSeed(stored) then Some(DefaultTabs) else stored
  }

  /** GET: read the tabs, seeding the defaults when there are none. */
  method Get(store: Store) returns (result: seq<Tab>)
    modifies store
    ensures result == Listed(old(store.tabs))
    ensures store.tabs == AfterGet(old(store.tabs))
    ensures store.zsets == old(store.zsets)
  {
    var tabs := store.tabs;
    if tabs.None? || tabs.value == [] {
      store.SetTabs(DefaultTabs);
      tabs := Some(DefaultTabs);
    }
    result := tabs.value;
  }

  /** After a GET the store holds exactly what that GET returned. */
  lemma GetStores(stored: Option<seq<Tab>>)
    ensures AfterGet(stored) == Some(Listed(stored))
  {
  }

  /** Seeding happens at most once: a second GET returns the same tabs and writes nothing new, so two GETs on an empty store give three tabs, not six. */
  lemma GetIdempotent(stored: Option<seq<Tab>>)
    ensures AfterGet(AfterGet(stored)) == AfterGet(stored)
    ensures Listed(AfterGet(stored)) == Listed(stored)
    ensures NeedsSeed(stored) ==> |Listed(AfterGet(stored))| == 3
  {
    GetStores(stored);
  }

  function Max(a: int, b: int): int {
    if a >= b then a else b
  }

  /**
    `tabs.reduce((max, t) => Math.max(max, t.sortOrder), -1)`: a left fold
    from -1. Every sort order is at most the result, and the result is -1 or
    one of the sort orders.
   */
  function MaxOrder(tabs: seq<Tab>): (r: int)
    ensures r >= -1
    ensures forall i :: 0 <= i < |tabs| ==> tabs[i].sortOrder <= r
    ensures r == -1 || exists i :: 0 <= i < |tabs| && tabs[i].sortOrder == r
  {
    if tabs == [] then -1
    else
      var init := tabs[..|tabs| - 1];
      assert forall i :: 0 <= i < |init| ==> init[i] == tabs[i];
      Max(MaxOrder(init), tabs[|tabs| - 1].sortOrder)
  }

  /** The tab POST creates. */
  function NewTab(stored: Option<seq<Tab>>, name: string, id: string): Tab {
    Tab(id, name, MaxOrder(stored.GetOr([])) + 1)
  }

  /** The stored tabs after POST. */
  function AfterPost(stored: Option<seq<Tab>>, name: string, id: string): seq<Tab> {
    stored.GetOr([]) + [NewTab(stored, name, id)]
  }

  /** POST: append a tab after the largest sort order; the name is not validated. */
  method Post(store: Store, name: string, newId: string) returns (tab: Tab)
    modifies store
    ensures tab == NewTab(old(store.tabs), name, newId)
    ensures store.tabs == Some(AfterPost(old(store.tabs), name, newId))
    ensures store.zsets == old(store.zsets)
  {
    var tabs := store.tabs.GetOr([]);
    var maxOrder := MaxOrder(tabs);
    tab := Tab(newId, name, maxOrder + 1);
    tabs := tabs + [tab];
    store.SetTabs(tabs);
  }

  /**
    The new tab sorts after every stored tab: its order is greater than all of
    theirs, and is 0 when there are none; it keeps the given name and id.
   */
  lemma NewTabSortsLast(stored: Option<seq<Tab>>, name: string, id: string)
    ensures var t := NewTab(stored, name, id);
      && t.id == id && t.name == name
      && (forall i :: 0 <= i < |stored.GetOr([])| ==> stored.GetOr([])[i].sortOrder < t.sortOrder)
      && (stored.GetOr([]) == [] ==> t.sortOrder == 0)
      && t.sortOrder >= 0
  {
  }

  /** POST on the default tabs gives the new tab sort order 3. */
  lemma NewTabAfterDefaults(name: string, id: string)
    ensures NewTab(Some(DefaultTabs), name, id).sortOrder == 3
  {
    var d := DefaultTabs;
    assert MaxOrder(d[..0]) == -1;
    assert d[..1][..0] == d[..0];
    assert MaxOrder(d[..1]) == 0;
    assert d[..2][..1] == d[..1];
    assert MaxOrder(d[..2]) == 1;
    assert d[..3] == d;
    assert d[..3][..2] == d[..2];
  }

  /** POST appends: one more tab, the earlier ones unchanged and in place, the new one last. */
  lemma PostAppends(stored: Option<seq<Tab>>, name: string, id: string)
    ensures var r := AfterPost(stored, name, id);
      && |r| == |stored.GetOr([])| + 1
      && r[..|r| - 1] == stored.GetOr([])
      && r[|r| - 1] == NewTab(stored, name, id)
  {
  }

  /** POST on an absent key behaves as on an empty array. */
  lemma PostAbsentIsEmpty(name: string, id: string)
    ensures AfterPost(None, name, id) == AfterPost(Some([]), name, id) == [Tab(id, name, 0)]
    ensures NewTab(None, name, id) == Tab(id, name, 0)
  {
  }
}

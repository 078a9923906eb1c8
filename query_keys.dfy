/**
  Query keys of the todo cache and their correspondence with source keys.
  A query key is an array whose entries may be `undefined` (reading past the
  end of an array); `["dayTodos", date]` holds a day's todos and
  `["listTodos", tabId, listId]` a list's.
 */
module QueryKeys {
  import opened Strings
  import opened Validation

  datatype KeyPart = Part(s: string) | Undefined

  type QueryKey = seq<KeyPart>

  /** `parts[i]`: `undefined` past the end. */
  function At(parts: seq<string>, i: nat): (p: KeyPart)
    ensures i < |parts| ==> p == Part(parts[i])
    ensures i >= |parts| ==> p == Undefined
  {
    if i < |parts| then Part(parts[i]) else Undefined
  }

  /** The parts of a split, as key entries. */
  function Parts(parts: seq<string>): (ps: QueryKey)
    ensures |ps| == |parts|
    ensures forall i :: 0 <= i < |parts| ==> ps[i] == Part(parts[i])
  {
    if parts == [] then [] else [Part(parts[0])] + Parts(parts[1..])
  }

  function DayKey(date: string): QueryKey {
    [Part("dayTodos"), Part(date)]
  }

  function ListKey(tabId: string, listId: string): QueryKey {
    [Part("listTodos"), Part(tabId), Part(listId)]
  }

  /** The key of a source given as an object, as the create mutation builds it. */
  function SourceQueryKey(src: Source): QueryKey {
    match src
    case Day(date) => DayKey(date)
    case List(tabId, listId) => ListKey(tabId, listId)
  }

  /**
    `sourceToQueryKey`: a key starting with `day:` gives the day key of the
    rest; any other string is read as a list key, whose second id may be
    `undefined`.
   */
  function SourceToQueryKey(source: string): (qk: QueryKey)
    ensures |qk| == (if StartsWith(source, "day:") then 2 else 3)
    ensures qk[0] == Part(if StartsWith(source, "day:") then "dayTodos" else "listTodos")
    ensures qk[1].Part?
  {
    if StartsWith(source, "day:") then DayKey(source[4..])
    else
      var parts := Split(Slice(source, 5), ':');
      [Part("listTodos"), At(parts, 0), At(parts, 1)]
  }

  /**
    The key the reorder mutation derives from its source key: the first
    `day:` (or `list:`) is removed, and a list key keeps every part of the
    split, however many.
   */
  function ReorderQueryKey(key: string): QueryKey {
    if StartsWith(key, "day:") then [Part("dayTodos"), Part(RemoveFirst(key, "day:"))]
    else [Part("listTodos")] + Parts(Split(RemoveFirst(key, "list:"), ':'))
  }

  /** Removing a prefix that is there removes it at the front. */
  lemma RemovePrefix(s: string, pat: string)
    requires pat != [] && StartsWith(s, pat)
    ensures RemoveFirst(s, pat) == s[|pat|..]
  {
  }

  /** `sourceToQueryKey` inverts the key strings of sources whose ids have no ':'. */
  lemma SourceToQueryKeyOfSource(src: Source)
    requires src.List? ==> ':' !in src.tabId && ':' !in src.listId
    ensures SourceToQueryKey(SourceKey(src)) == SourceQueryKey(src)
  {
    var k := SourceKey(src);
    match src
    case Day(date) =>
      assert k[..4] == "day:" && k[4..] == date;
    case List(tabId, listId) =>
      assert k[0] == 'l';
      assert k[5..] == tabId + ":" + listId;
      SplitTwo(tabId, listId);
  }

  /** On every valid source key, `sourceToQueryKey` yields the key of the source it names. */
  lemma SourceToQueryKeyValid(key: string)
    requires IsValidSourceKey(key)
    ensures SourceToQueryKey(key) == SourceQueryKey(SourceOf(key))
  {
    var src := SourceOf(key);
    if src.List? {
      ValidIdHasNoColon(src.tabId);
      ValidIdHasNoColon(src.listId);
    }
    SourceToQueryKeyOfSource(src);
  }

  /** Distinct valid source keys address distinct cache entries. */
  lemma SourceToQueryKeyInjective(a: string, b: string)
    requires IsValidSourceKey(a) && IsValidSourceKey(b)
    requires SourceToQueryKey(a) == SourceToQueryKey(b)
    ensures a == b
  {
    SourceToQueryKeyValid(a);
    SourceToQueryKeyValid(b);
    var sa, sb := SourceOf(a), SourceOf(b);
    assert SourceQueryKey(sa) == SourceQueryKey(sb);
    SourceKeyInjective(sa, sb);
  }

  /** On valid keys, the reorder mutation and `sourceToQueryKey` agree. */
  lemma ReorderQueryKeyAgrees(key: string)
    requires IsValidSourceKey(key)
    ensures ReorderQueryKey(key) == SourceToQueryKey(key)
  {
    if StartsWith(key, "day:") {
      RemovePrefix(key, "day:");
    } else {
      RemovePrefix(key, "list:");
      var parts := Split(key[5..], ':');
      assert Parts(parts) == [Part(parts[0]), Part(parts[1])];
    }
  }

  /** A key starting with 'l' is read as a list key. */
  lemma NotDayKey(key: string)
    requires |key| > 0 && key[0] == 'l'
    ensures !StartsWith(key, "day:")
  {
    if |key| >= 4 {
      assert key[..4][0] == 'l';
    }
  }

  /** A list key with one id reads its second id as `undefined`. */
  lemma OneIdExample()
    ensures SourceToQueryKey("list:onlyone") == [Part("listTodos"), Part("onlyone"), Undefined]
  {
    var k := "list:onlyone";
    NotDayKey(k);
    assert Slice(k, 5) == "onlyone";
    SplitFree("onlyone", ':');
  }

  /** A list key with three ids: `sourceToQueryKey` drops the third, the reorder mutation keeps it. */
  lemma ThreeIdsExample()
    ensures SourceToQueryKey("list:a:b:c") == [Part("listTodos"), Part("a"), Part("b")]
    ensures ReorderQueryKey("list:a:b:c") == [Part("listTodos"), Part("a"), Part("b"), Part("c")]
  {
    var k := "list:a:b:c";
    NotDayKey(k);
    assert StartsWith(k, "list:");
    RemovePrefix(k, "list:");
    var rest := k[5..];
    assert rest == "a" + [':'] + ("b" + [':'] + "c");
    assert Slice(k, 5) == rest;
    SplitAt("a", ':', "b" + [':'] + "c");
    SplitAt("b", ':', "c");
    SplitFree("c", ':');
    assert Split(rest, ':') == ["a", "b", "c"];
  }
}

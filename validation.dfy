/**
  The three input grammars of the application (date keys, identifiers, source keys)
  and the text and name checks, as pure predicates. A source key names an ordered
  collection of todos: `day:<date>` or `list:<tabId>:<listId>`.
 */
module Validation {
  import opened Strings

  /** `/^\d{4}-\d{2}-\d{2}$/`: only the digit grouping is checked, not the calendar. */
  predicate IsValidDateKey(date: string) {
    && |date| == 10 && date[4] == '-' && date[7] == '-'
    && forall i :: 0 <= i < 10 && i != 4 && i != 7 ==> IsDigit(date[i])
  }

  /** One character of `[a-zA-Z0-9_-]`. */
  predicate IsIdChar(c: char) {
    ('a' <= c <= 'z') || ('A' <= c <= 'Z') || ('0' <= c <= '9') || c == '_' || c == '-'
  }

  /** Between 1 and 50 identifier characters. */
  predicate IsValidId(id: string) {
    0 < |id| <= 50 && forall i :: 0 <= i < |id| ==> IsIdChar(id[i])
  }

  /** `day:` followed by a date key, or `list:` followed by exactly two ids joined by ':'. */
  predicate IsValidSourceKey(source: string) {
    if StartsWith(source, "day:") then IsValidDateKey(source[4..])
    else if StartsWith(source, "list:") then
      var parts := Split(source[5..], ':');
      |parts| == 2 && IsValidId(parts[0]) && IsValidId(parts[1])
    else false
  }

  /** Todo text: something other than white space, at most 500 characters before trimming. */
  predicate IsValidText(text: string) {
    |Trim(text)| > 0 && |text| <= 500
  }

  /** Tab and list names: the same shape with a limit of 100. */
  predicate IsValidName(name: string) {
    |Trim(name)| > 0 && |name| <= 100
  }

  /** The abstract syntax of a source key. */
  datatype Source = Day(date: string) | List(tabId: string, listId: string)

  predicate ValidSource(src: Source) {
    match src
    case Day(date) => IsValidDateKey(date)
    case List(tabId, listId) => IsValidId(tabId) && IsValidId(listId)
  }

  /** The wire form of a source, as the drag layer writes it. */
  function SourceKey(src: Source): string {
    match src
    case Day(date) => "day:" + date
    case List(tabId, listId) => "list:" + tabId + ":" + listId
  }

  /** A valid id never contains the separator ':'. */
  lemma ValidIdHasNoColon(id: string)
    requires IsValidId(id)
    ensures ':' !in id
  {
    forall i | 0 <= i < |id|
      ensures id[i] != ':'
    {
      assert IsIdChar(id[i]);
    }
  }

  /** A `day:` key is valid exactly when what follows the prefix is a date key. */
  lemma DayKeyValid(rest: string)
    ensures IsValidSourceKey("day:" + rest) <==> IsValidDateKey(rest)
  {
    var s := "day:" + rest;
    assert s[..4] == "day:" && s[4..] == rest;
  }

  /** A `list:` key is valid exactly when the rest splits on ':' into two valid ids. */
  lemma ListKeyValid(rest: string)
    ensures IsValidSourceKey("list:" + rest) <==>
      (var parts := Split(rest, ':'); |parts| == 2 && IsValidId(parts[0]) && IsValidId(parts[1]))
  {
    var s := "list:" + rest;
    assert s[0] == 'l';
    assert s[..5] == "list:" && s[5..] == rest;
  }

  /** A string with neither prefix, the empty string among them, is rejected. */
  lemma UnprefixedRejected(s: string)
    requires !StartsWith(s, "day:") && !StartsWith(s, "list:")
    ensures !IsValidSourceKey(s)
  {
  }

  lemma {:induction false} CountConcat(a: string, b: string, c: char)
    ensures Count(a + b, c) == Count(a, c) + Count(b, c)
  {
    if a == [] {
      assert a + b == b;
    } else {
      assert (a + b)[0] == a[0];
      assert (a + b)[1..] == a[1..] + b;
      CountConcat(a[1..], b, c);
    }
  }

  lemma {:induction false} CountZero(s: string, c: char)
    ensures Count(s, c) == 0 <==> c !in s
  {
    if s != [] {
      CountZero(s[1..], c);
      assert s == [s[0]] + s[1..];
    }
  }

  /** Two colon-free ids joined by ':' split back into exactly those two. */
  lemma SplitTwo(tabId: string, listId: string)
    requires ':' !in tabId && ':' !in listId
    ensures Split(tabId + ":" + listId, ':') == [tabId, listId]
  {
    SplitAt(tabId, ':', listId);
    SplitFree(listId, ':');
  }

  /** The serialized form of a source is a valid key exactly when the source is valid. */
  lemma SourceKeyValid(src: Source)
    ensures IsValidSourceKey(SourceKey(src)) <==> ValidSource(src)
  {
    match src
    case Day(date) =>
      DayKeyValid(date);
    case List(tabId, listId) =>
      var rest := tabId + ":" + listId;
      assert SourceKey(src) == "list:" + rest;
      ListKeyValid(rest);
      if ValidSource(src) {
        ValidIdHasNoColon(tabId);
        ValidIdHasNoColon(listId);
        SplitTwo(tabId, listId);
      }
      if IsValidSourceKey(SourceKey(src)) {
        var parts := Split(rest, ':');
        SplitCount(rest, ':');
        CountConcat(tabId + ":", listId, ':');
        CountConcat(tabId, ":", ':');
        assert Count(":", ':') == 1;
        CountZero(tabId, ':');
        CountZero(listId, ':');
        SplitTwo(tabId, listId);
      }
  }

  /** Every valid key is the serialization of a valid source, which this function recovers. */
  function SourceOf(key: string): (src: Source)
    requires IsValidSourceKey(key)
    ensures ValidSource(src) && SourceKey(src) == key
  {
    if StartsWith(key, "day:") then
      assert key == "day:" + key[4..];
      Day(key[4..])
    else
      var parts := Split(key[5..], ':');
      JoinSplit(key[5..], ':');
      assert Join(parts, ':') == parts[0] + ":" + parts[1];
      assert key == key[..5] + key[5..];
      List(parts[0], parts[1])
  }

  /** The first character of a key tells its kind. */
  lemma SourceKeyHead(src: Source)
    ensures |SourceKey(src)| > 0
    ensures SourceKey(src)[0] == if src.Day? then 'd' else 'l'
  {
  }

  /** Distinct valid sources have distinct keys. */
  lemma SourceKeyInjective(a: Source, b: Source)
    requires ValidSource(a) && ValidSource(b)
    requires SourceKey(a) == SourceKey(b)
    ensures a == b
  {
    SourceKeyHead(a);
    SourceKeyHead(b);
    var k := SourceKey(a);
    if a.Day? {
      assert k[4..] == a.date == b.date;
    } else {
      ValidIdHasNoColon(a.tabId);
      ValidIdHasNoColon(a.listId);
      ValidIdHasNoColon(b.tabId);
      ValidIdHasNoColon(b.listId);
      assert k[5..] == a.tabId + ":" + a.listId == b.tabId + ":" + b.listId;
      SplitTwo(a.tabId, a.listId);
      SplitTwo(b.tabId, b.listId);
    }
  }

  /** A text is accepted exactly when it has a non-white-space character and at most 500 characters. */
  lemma ValidTextSpec(text: string)
    ensures IsValidText(text) <==> !IsBlank(text) && |text| <= 500
  {
    TrimSpec(text);
  }

  /** A name is accepted exactly when it has a non-white-space character and at most 100 characters. */
  lemma ValidNameSpec(name: string)
    ensures IsValidName(name) <==> !IsBlank(name) && |name| <= 100
  {
    TrimSpec(name);
  }

  /** The date-key and id cases the unit tests of the validators pin down. */
  lemma DateAndIdExamples()
    ensures IsValidDateKey("2025-01-15") && IsValidDateKey("2025-99-99")
    ensures !IsValidDateKey("2025-1-5") && !IsValidDateKey("2025/01/15") && !IsValidDateKey("")
    ensures IsValidId("my-tab_1") && !IsValidId("") && !IsValidId("has space")
  {
    assert !IsIdChar("has space"[3]);
  }

  /** Fifty identifier characters make an id; fifty-one do not. */
  lemma IdLengthBoundary(c: char)
    requires IsIdChar(c)
    ensures IsValidId(seq(50, _ => c))
    ensures !IsValidId(seq(51, _ => c))
  {
  }

  /** The well-formed day key of the unit tests is accepted. */
  lemma AcceptedDayKeyExample()
    ensures IsValidSourceKey("day:2025-01-15")
  {
    DayKeyValid("2025-01-15");
  }

  /** The well-formed list key of the unit tests is accepted. */
  lemma AcceptedListKeyExample()
    ensures IsValidSourceKey("list:tab1:list1")
  {
    var src := List("tab1", "list1");
    assert IsValidId("tab1") && IsValidId("list1");
    assert SourceKey(src) == "list:tab1:list1";
    SourceKeyValid(src);
  }

  /** A list key with a single id is rejected. */
  lemma RejectedSingleIdExample()
    ensures !IsValidSourceKey("list:onlyone")
  {
    assert "list:onlyone" == "list:" + "onlyone";
    ListKeyValid("onlyone");
    SplitCount("onlyone", ':');
    CountZero("onlyone", ':');
  }

  /** A list key with three ids is rejected. */
  lemma RejectedThreeIdsExample()
    ensures !IsValidSourceKey("list:a:b:c")
  {
    assert "list:a:b:c" == "list:" + "a:b:c";
    ListKeyValid("a:b:c");
    SplitCount("a:b:c", ':');
    assert Count("c", ':') == 0;
    assert Count(":c", ':') == 1;
    assert Count("b:c", ':') == 1;
    assert Count(":b:c", ':') == 2;
    assert Count("a:b:c", ':') == 2;
  }

  /** A bad date, an unknown prefix and the empty string are rejected. */
  lemma RejectedSourceKeyExamples()
    ensures !IsValidSourceKey("day:bad-date") && !IsValidSourceKey("unknown:foo") && !IsValidSourceKey("")
  {
    DayKeyValid("bad-date");
    assert "unknown:foo"[0] == 'u';
  }
}

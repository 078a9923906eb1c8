# mk-todo: a verified model of its ordering and synchronisation core

mk-todo is a notebook-style todo application. Todos belong to a **day**, keyed
by a date string, or to a **list**, which sits inside a **tab**. They are stored
in Redis sorted sets, one per *source key* (`day:<date>` or `list:<tabId>:<listId>`).
The browser keeps an optimistic React Query cache of each collection. Todos
are dragged between and within notebook columns.

This project models the parts of the application that decide *what* is
written where:

- the validators and the source-key codec (`Validation`, `QueryKeys`);
- the date keys and calendar arithmetic (`DateUtils`);
- the inline-markdown splitter (`Markdown`);
- the tabs, move and reorder API routes over an abstract key/sorted-set store
  (`Storage`, `TabsRoute`, `MoveRoute`, `ReorderRoute`);
- the optimistic cache transforms of the todo hooks (`QueryCache`, `UseTodos`);
- the two drag-and-drop providers (`DndProvider`, `TodoDndProvider`, with the
  array helpers in `ArrayOps`);
- the edit state machines of the notebook column, the todo row, the list
  column header and the tab bar (`NotebookColumn`, `TodoItem`, `ListColumn`,
  `TabBar`).

Pure code (validation, dates, key mapping, cache transforms, drop rules)
is written as functions with lemmas. The loops of the source become methods
proved equal to a specification function:

- `splitByRegex` and `processNodes`;
- the container scans of both providers;
- the reorder route's `zadd` loop.

Stateful code is written as classes whose methods update fields:

- the Redis store;
- the query cache;
- the provider's registry and drag state;
- each component's `useState` variables.

Every callback a component or handler makes is appended to a log field
(`calls` or `effects`). So "sends exactly this", and "sends nothing", are
postconditions on that log.

Strings are `seq<char>`. JavaScript's `trim`, `split`, `slice`, `startsWith`,
`replace`, `String(n)` and `padStart` are written out in `Strings`. The
regular expressions of the markdown passes are an oracle that yields ordered,
non-overlapping, non-empty matches (`Markdown.FinderOk`).

## Model

| member | source | states |
|---|---|---|
| Strings.TrimSpec | src/lib/validation.ts:24 | `trim()` is empty exactly for all-white-space input; otherwise neither end of the result is white space, and it is no longer than the input |
| Strings.TrimIdempotent | src/components/NotebookColumn.tsx:88-89 | trimming an already trimmed string changes nothing |
| Strings.TrimmedTidy | src/components/TodoItem.tsx:34-36 | a non-blank string trims to a non-empty text with no white space at either end, which a second trim keeps |
| Strings.SliceRange | src/lib/markdown.tsx:120 | `slice(start, end)` on in-range bounds is exactly that substring, and never longer than the string |
| Strings.SplitCount | src/lib/validation.ts:17-18 | `split(':')` gives one more part than there are colons, so exactly two parts means exactly one colon |
| Strings.SplitPartsFree | src/lib/validation.ts:17 | no part of a split contains the separator |
| Strings.JoinSplit | src/lib/validation.ts:17 | joining the parts of a split with the separator gives the string back |
| Strings.SplitJoin | src/lib/validation.ts:17 | splitting the join of separator-free parts gives the parts back |
| Strings.NatToStringValue | src/lib/utils.ts:15-16 | `String(n)` is all digits, and reading them back gives n |
| Strings.NatToStringInjective | src/lib/utils.ts:14-17 | different non-negative numbers print differently |
| Strings.IntToStringSign | src/lib/utils.ts:14 | `String(i)` starts with '-' exactly when i is negative |
| Strings.IntToStringInjective | src/lib/utils.ts:14 | different integers print differently |
| Strings.Pad2Spec | src/lib/utils.ts:15-16 | `padStart(2, "0")` of a value below 100 is two digits whose value is the number |
| Validation.DateAndIdExamples | src/__tests__/lib/validation.test.ts:4-38 | the test cases hold: "2025-99-99" passes the date check (no calendar check); "2025-1-5", "2025/01/15" and "" fail; "my-tab_1" is an id; "" and "has space" are not |
| Validation.IsValidDateKey | src/lib/validation.ts:4-6 | no contract of its own; specified by DateAndIdExamples and DateUtils.FormatDateKeyValid (digit grouping only, no calendar check) |
| Validation.IsValidId | src/lib/validation.ts:8-10 | no contract of its own; specified by IdLengthBoundary, ValidIdHasNoColon and DateAndIdExamples |
| Validation.IsValidSourceKey | src/lib/validation.ts:12-21 | no contract of its own; specified by DayKeyValid, ListKeyValid, UnprefixedRejected and SourceKeyValid |
| Validation.IsValidText | src/lib/validation.ts:23-25 | no contract of its own; specified on string arguments by ValidTextSpec (non-strings: see Left out) |
| Validation.IsValidName | src/lib/validation.ts:27-29 | no contract of its own; specified on string arguments by ValidNameSpec (non-strings: see Left out) |
| Validation.IdLengthBoundary | src/lib/validation.ts:8-10 | 50 id characters are a valid id and 51 are not |
| Validation.ValidIdHasNoColon | src/lib/validation.ts:2 | a valid id never contains ':' |
| Validation.DayKeyValid | src/lib/validation.ts:13-15 | a `day:` key is valid iff the rest is a date key |
| Validation.ListKeyValid | src/lib/validation.ts:16-19 | a `list:` key is valid iff the rest splits on ':' into exactly two valid ids |
| Validation.UnprefixedRejected | src/lib/validation.ts:20 | a string with neither prefix, including "", is rejected |
| Validation.SplitTwo | src/lib/validation.ts:17-18 | two colon-free ids joined by ':' split back into exactly those two |
| Validation.SourceKeyValid | src/lib/validation.ts:12-21 | the key written for a source is valid iff the source's date or ids are valid |
| Validation.SourceOf | src/lib/validation.ts:12-21 | every valid key is the key of exactly one valid source, and that source is recovered |
| Validation.SourceKeyHead | src/lib/validation.ts:13-16 | a key's first character tells day keys from list keys |
| Validation.SourceKeyInjective | src/lib/validation.ts:12-21 | distinct valid sources have distinct keys |
| Validation.ValidTextSpec | src/lib/validation.ts:23-25 | a text is accepted iff it is not all white space and has at most 500 characters |
| Validation.ValidNameSpec | src/lib/validation.ts:27-29 | a name is accepted iff it is not all white space and has at most 100 characters |
| Validation.AcceptedDayKeyExample | src/__tests__/lib/validation.test.ts:42-44 | "day:2025-01-15" is accepted |
| Validation.AcceptedListKeyExample | src/__tests__/lib/validation.test.ts:50-52 | "list:tab1:list1" is accepted |
| Validation.RejectedSingleIdExample | src/__tests__/lib/validation.test.ts:54-55 | "list:onlyone" is rejected |
| Validation.RejectedThreeIdsExample | src/__tests__/lib/validation.test.ts:54-56 | "list:a:b:c" is rejected |
| Validation.RejectedSourceKeyExamples | src/__tests__/lib/validation.test.ts:46-62 | "day:bad-date", "unknown:foo" and "" are rejected |
| Types.WithTodos | src/hooks/useTodos.ts:86-89 | `{ ...snapshot, todos }` keeps the collection's kind, date or ids, and replaces only its todos |
| Types.Ids | src/components/DndProvider.tsx:221 | `todos.map(t => t.id)` has one id per todo, in order |
| DateUtils.DaysInMonth | src/lib/utils.ts:28-32 | every month has 28 to 31 days |
| DateUtils.NatToStringLength | src/lib/utils.ts:14-17 | a four-digit year prints as four characters (and shorter years as fewer) |
| DateUtils.FormatDateKeyValid | src/lib/utils.ts:13-18 | for a real date with a four-digit year, the key has 10 characters and passes `isValidDateKey` |
| DateUtils.FormatDateKey | src/lib/utils.ts:13-18 | no contract of its own; specified by FormatDateKeyValid and FormatDateKeyInjective |
| DateUtils.Pad2Injective | src/lib/utils.ts:15-16 | padded month and day numbers below 100 are distinct when the numbers are |
| DateUtils.FormatDateKeyInjective | src/lib/utils.ts:13-18 | distinct real dates, of any year, have distinct keys |
| DateUtils.NextDay | src/lib/utils.ts:30 | the day after a real date is a real date |
| DateUtils.PrevDay | src/lib/utils.ts:30 | the day before a real date is a real date |
| DateUtils.AddDays | src/lib/utils.ts:28-32 | `addDays` returns a new real date; the argument is a value and is not changed |
| DateUtils.YearLength | src/lib/utils.ts:30 | a year has 366 days when it is a Gregorian leap year, else 365 |
| DateUtils.DaysBeforeDecember | src/lib/utils.ts:30 | the months before December plus 31 fill the year |
| DateUtils.NextDaySpec | src/lib/utils.ts:30 | the next day is one day later on an independent day count, across month and year ends and leap days |
| DateUtils.PrevDaySpec | src/lib/utils.ts:30 | the previous day is one day earlier on that count |
| DateUtils.PrevNext | src/lib/utils.ts:30 | stepping forward, then back, returns to the date |
| DateUtils.NextPrev | src/lib/utils.ts:30 | stepping back, then forward, returns to the date |
| DateUtils.AddDaysShift | src/lib/utils.ts:28-32 | `addDays(d, n)` is exactly n days from d on the independent day count, for either sign of n |
| DateUtils.AddDaysSucc | src/lib/utils.ts:28-32 | one day after `addDays(d, n)` is `addDays(d, n + 1)` |
| DateUtils.AddDaysPred | src/lib/utils.ts:28-32 | one day before `addDays(d, n)` is `addDays(d, n - 1)` |
| DateUtils.AddDaysCompose | src/lib/utils.ts:28-32 | adding a days and then b days is adding a + b days; with 0 the date is unchanged |
| DateUtils.IsTodaySpec | src/lib/utils.ts:34-37 | `isToday(d)` holds iff d is the current date (keys compared, which is injective) |
| DateUtils.IsToday | src/lib/utils.ts:34-37 | no contract of its own; specified by IsTodaySpec and YesterdayIsNotToday |
| DateUtils.YesterdayIsNotToday | src/lib/utils.ts:28-37 | `addDays(now, -1)` is never today |
| DateUtils.DateExamples | src/__tests__/lib/utils.test.ts:29-67 | the tested keys and shifts hold, plus a leap day, a non-leap February and a year end |
| Markdown.ElemsOf | src/lib/markdown.tsx:22-29 | the elements of one pass taken from a node list, in order |
| Markdown.SplitByRegexSpec | src/lib/markdown.tsx:131 | `splitByRegex` never returns an empty array |
| Markdown.SplitFrom | src/lib/markdown.tsx:118-129 | no contract of its own; specified by SplitFlatten, SplitPiecesNonEmpty and SplitElems |
| Markdown.Parse | src/lib/markdown.tsx:34-106 | no contract of its own; specified by SplitByRegexSpec and the Split lemmas, and by ProcessKeepsOtherElems for non-string nodes |
| Markdown.SplitByRegex | src/lib/markdown.tsx:108-132 | the loop pushes, match by match, the text before the match and the rendered match, then the tail; the result is the specification's |
| Markdown.SplitFlatten | src/lib/markdown.tsx:118-129 | plain pieces and matched spans, in order, rebuild the input exactly |
| Markdown.SplitPiecesNonEmpty | src/lib/markdown.tsx:119-131 | no plain piece is empty, except the lone "" returned for an empty text |
| Markdown.SplitElems | src/lib/markdown.tsx:122-124 | there is one element per match, rendered with index 0, 1, ... in match order, and no element of another pass |
| Markdown.SplitNoMatches | src/lib/markdown.tsx:127-131 | without matches the result is exactly `[text]` |
| Markdown.ProcessNodes | src/lib/markdown.tsx:16-32 | the loop replaces every string node by its parse, passes other nodes through and advances `keyOffset`; the result is the specification's |
| Markdown.ProcessFrom | src/lib/markdown.tsx:20-31 | no contract of its own; specified by ProcessNodes, ProcessFlatten and ProcessKeysIncrease |
| Markdown.ProcessFlatten | src/lib/markdown.tsx:22-29 | a pass keeps the text the nodes stand for |
| Markdown.ProcessKeepsOtherElems | src/lib/markdown.tsx:27-28 | elements that are not of this pass come through unchanged and in their order |
| Markdown.ProcessKeepsElemsOf | src/lib/markdown.tsx:27-28 | a pass leaves the elements of any other pass exactly as they were |
| Markdown.ProcessKeysIncrease | src/lib/markdown.tsx:20-26 | because `keyOffset` grows by each string's piece count, the keys of a pass's elements strictly increase |
| Markdown.RenderedKeyNumbers | src/lib/markdown.tsx:118-124 | the element for match j of a string has key number `keyOffset + j` |
| Markdown.RenderNodes | src/lib/markdown.tsx:3-14 | `renderMarkdown` applies the passes, in their fixed order, to `[text]` |
| Markdown.ApplyPasses | src/lib/markdown.tsx:6-11 | no contract of its own; specified by ApplyPassesSplit and ApplyPassesKeepsElemsOf |
| Markdown.RenderMarkdown | src/lib/markdown.tsx:3-14 | no contract of its own; specified by RenderNodes, RenderFlatten, RenderPlain and RenderKeysDistinct |
| Markdown.RenderFlatten | src/lib/markdown.tsx:3-14 | the rendered nodes, read as source text, give back the input |
| Markdown.RenderPlain | src/lib/markdown.tsx:3-13 | text in which no pass finds anything is returned as the single unchanged string |
| Markdown.ApplyPassesKeepsElemsOf | src/lib/markdown.tsx:6-11 | passes other than q leave the elements of q as they were |
| Markdown.ApplyPassesSplit | src/lib/markdown.tsx:6-11 | applying the passes is applying those before k, then pass k, then the rest |
| Markdown.PassOrderDistinct | src/lib/markdown.tsx:6-11 | each of the six passes occurs once: links, code, bold, italic, strikethrough, autolinks |
| Markdown.RenderKeysDistinct | src/lib/markdown.tsx:3-38 | in a whole rendering the React keys of each pass are pairwise distinct |
| Storage.ZSetOf | src/app/api/todos/move/route.ts:23-24 | a missing key reads as the empty sorted set |
| Storage.ZAdded | src/app/api/todos/move/route.ts:24 | `zadd` sets one member's score in one set and changes no other set |
| Storage.ZRemoved | src/app/api/todos/move/route.ts:23 | `zrem` removes one member from one set and changes no other set |
| Storage.Store.constructor | src/app/api/tabs/route.ts:13 | an empty store: no tabs value, no sorted sets |
| Storage.Store.SetTabs | src/app/api/tabs/route.ts:16 | `set("tabs", v)` stores v and leaves the sorted sets |
| Storage.Store.ZAdd | src/app/api/todos/reorder/route.ts:12 | the store's sets become the `zadd` result; the tabs value is kept |
| Storage.Store.ZRem | src/app/api/todos/move/route.ts:23 | the store's sets become the `zrem` result; the tabs value is kept |
| TabsRoute.NeedsSeed | src/app/api/tabs/route.ts:15 | no contract of its own; specified by Listed, Get and GetStores |
| TabsRoute.Listed | src/app/api/tabs/route.ts:12-21 | GET returns the three default tabs for an absent or empty value, else the stored array unchanged |
| TabsRoute.Get | src/app/api/tabs/route.ts:12-21 | GET returns that list and writes the defaults only when it seeds; sorted sets untouched |
| TabsRoute.GetStores | src/app/api/tabs/route.ts:15-20 | after GET the store holds exactly what GET returned |
| TabsRoute.AfterGet | src/app/api/tabs/route.ts:15-18 | no contract of its own; specified by Get, GetStores and GetIdempotent |
| TabsRoute.GetIdempotent | src/app/api/tabs/route.ts:12-21 | a second GET returns and stores the same tabs: seeding gives 3 tabs, never 6 |
| TabsRoute.MaxOrder | src/app/api/tabs/route.ts:28 | the `reduce` is -1 for no tabs, else the largest sort order, which some tab has |
| TabsRoute.Post | src/app/api/tabs/route.ts:23-39 | POST returns the new tab and stores the old tabs with it appended; the name is not validated |
| TabsRoute.NewTabSortsLast | src/app/api/tabs/route.ts:28-33 | the new tab's sort order is max + 1 (0 without tabs), greater than every existing one |
| TabsRoute.NewTab | src/app/api/tabs/route.ts:28-33 | no contract of its own; specified by NewTabSortsLast and NewTabAfterDefaults |
| TabsRoute.NewTabAfterDefaults | src/app/api/tabs/route.ts:6-33 | after the defaults the new tab gets sort order 3 |
| TabsRoute.PostAppends | src/app/api/tabs/route.ts:35-36 | one tab more, the earlier ones unchanged and in place, the new one last |
| TabsRoute.AfterPost | src/app/api/tabs/route.ts:26-36 | no contract of its own; specified by Post, PostAppends and PostAbsentIsEmpty |
| TabsRoute.PostAbsentIsEmpty | src/app/api/tabs/route.ts:26 | POST on an absent key behaves as on an empty array |
| MoveRoute.Rejection | src/app/api/todos/move/route.ts:12-20 | the first failed check is reported, in order: todoId, fromSource, toSource; none iff all three are valid |
| MoveRoute.Post | src/app/api/todos/move/route.ts:5-28 | a rejection answers 400 and changes nothing; otherwise `zrem` from the source, then `zadd` to the destination with the clock as score |
| MoveRoute.InvalidIdFirst | src/app/api/todos/move/route.ts:12-14 | an invalid todo id is reported whatever the source keys are |
| MoveRoute.MovedMembership | src/app/api/todos/move/route.ts:23-24 | afterwards the id is in the destination with the clock as score, and not in the source unless source and destination are the same key |
| MoveRoute.Moved | src/app/api/todos/move/route.ts:22-25 | no contract of its own; specified by MovedMembership, MovedConservation, MovedFrame and MovedSortsLast |
| MoveRoute.MovedConservation | src/app/api/todos/move/route.ts:23-24 | moving a member of the source that is not in the destination shrinks the source by one and grows the destination by one |
| MoveRoute.MovedFrame | src/app/api/todos/move/route.ts:22-25 | every other member keeps its membership and score, and other sets are untouched |
| MoveRoute.MovedSortsLast | src/app/api/todos/move/route.ts:24 | a clock later than every destination score makes the moved id sort last there |
| ReorderRoute.Post | src/app/api/todos/reorder/route.ts:4-16 | the loop's `zadd`s leave the set as `Reordered`, no input is validated, and the answer is always success |
| ReorderRoute.ListedScore | src/app/api/todos/reorder/route.ts:10-13 | a listed id ends with the score of its last position |
| ReorderRoute.ScoresAfter | src/app/api/todos/reorder/route.ts:11-13 | no contract of its own; specified by ListedScore and UnlistedKept through Reordered |
| ReorderRoute.Reordered | src/app/api/todos/reorder/route.ts:10-14 | no contract of its own; specified by ListedScore, UnlistedKept, ReorderedMembers, ReorderIdempotent and PermutationReadsAs |
| ReorderRoute.UnlistedKept | src/app/api/todos/reorder/route.ts:10-13 | a member that is not listed keeps its membership and score |
| ReorderRoute.ReorderedMembers | src/app/api/todos/reorder/route.ts:12 | the members afterwards are the old ones plus every listed id; unknown ids are inserted |
| ReorderRoute.ReorderIdempotent | src/app/api/todos/reorder/route.ts:10-14 | running the same reorder twice gives the set of running it once |
| ReorderRoute.LastIndexUnique | src/app/api/todos/reorder/route.ts:11-12 | an id has one last position, so its final score is well defined |
| ReorderRoute.PermutationReadsAs | src/app/api/todos/reorder/route.ts:11-12 | when the ids list each member once, the set read by ascending score is exactly the ids, each id at score equal to its index |
| QueryKeys.At | src/hooks/useTodos.ts:124 | `parts[i]` is the part, or `undefined` past the end |
| QueryKeys.Parts | src/hooks/useTodos.ts:247 | the split parts, spread into the key, in order |
| QueryKeys.SourceQueryKey | src/hooks/useTodos.ts:64-67 | no contract of its own; specified by SourceToQueryKeyOfSource, SourceToQueryKeyValid and TodoDndProvider.SourceQueryKeyWellFormed |
| QueryKeys.SourceToQueryKey | src/hooks/useTodos.ts:119-125 | a `day:` key gives a two-entry `dayTodos` key; anything else gives a three-entry `listTodos` key |
| QueryKeys.RemovePrefix | src/hooks/useTodos.ts:246-247 | `replace(prefix, "")` on a key that starts with the prefix removes it from the front |
| QueryKeys.SourceToQueryKeyOfSource | src/hooks/useTodos.ts:119-125 | `sourceToQueryKey` inverts the key strings of day and list sources (ids without ':') |
| QueryKeys.SourceToQueryKeyValid | src/hooks/useTodos.ts:119-125 | on every valid source key it yields the query key of the source that key names |
| QueryKeys.SourceToQueryKeyInjective | src/hooks/useTodos.ts:119-125 | distinct valid source keys address distinct cache entries |
| QueryKeys.ReorderQueryKeyAgrees | src/hooks/useTodos.ts:244-247 | on valid keys the reorder mutation computes the same query key as `sourceToQueryKey` |
| QueryKeys.ReorderQueryKey | src/hooks/useTodos.ts:244-247 | no contract of its own; specified by ReorderQueryKeyAgrees and ThreeIdsExample |
| QueryKeys.NotDayKey | src/hooks/useTodos.ts:120 | a key starting with 'l' takes the list branch |
| QueryKeys.OneIdExample | src/hooks/useTodos.ts:123-124 | "list:onlyone" maps to a key whose list id is `undefined` |
| QueryKeys.ThreeIdsExample | src/hooks/useTodos.ts:123-124 | "list:a:b:c": `sourceToQueryKey` drops the third id, the reorder mutation keeps it |
| QueryCache.Cache.constructor | src/hooks/useTodos.ts:71-73 | an empty cache: no queries, no data, nothing invalidated |
| QueryCache.Cache.GetQueryData | src/hooks/useTodos.ts:71-73 | `getQueryData` yields the cached body exactly when the key has data |
| QueryCache.Cache.SetQueryData | src/hooks/useTodos.ts:86-89 | `setQueryData` stores the body under the key, adding the query last if it is new; nothing else changes |
| QueryCache.Cache.InvalidateQueries | src/hooks/useTodos.ts:99-103 | invalidation marks the key stale and keeps its data |
| UseTodos.OptimisticTodo | src/hooks/useTodos.ts:75-83 | the optimistic todo has the text, is not completed, has equal created and updated times, and an id "temp-" followed by the clock |
| UseTodos.ApplyPatch | src/hooks/useTodos.ts:152 | `{ ...t, ...updates }` takes each supplied field and keeps the id, timestamps and every absent field |
| UseTodos.UpdateTodos | src/hooks/useTodos.ts:148-155 | same length; todos with the id are patched and all others are unchanged |
| UseTodos.UpdateKeepsIds | src/hooks/useTodos.ts:151-153 | an update keeps the ids and their order |
| UseTodos.UpdateIdempotent | src/hooks/useTodos.ts:151-153 | applying the same update again changes nothing more |
| UseTodos.RemoveTodos | src/hooks/useTodos.ts:201 | the result is no longer than the input and holds no todo with the id |
| UseTodos.RemoveIsSubsequence | src/hooks/useTodos.ts:198-203 | the result is the snapshot with some todos left out, the rest in their original order |
| UseTodos.RemoveCounts | src/hooks/useTodos.ts:201 | every todo with another id is kept as often as it occurred; none with the id remains |
| UseTodos.RemoveIdempotent | src/hooks/useTodos.ts:201 | deleting twice is deleting once |
| UseTodos.TodoMap | src/hooks/useTodos.ts:256-258 | the map's keys are exactly the snapshot's ids, each mapped to a snapshot todo with that id; which one is stated in TodoMapLast |
| UseTodos.TodoMapLast | src/hooks/useTodos.ts:256-258 | under each id the map holds the last todo with that id, so a later duplicate (possible with optimistic ids) replaces an earlier one |
| UseTodos.ReorderTodos | src/hooks/useTodos.ts:259-261 | the reordered todos are snapshot todos, at most one per listed id |
| UseTodos.ReorderIds | src/hooks/useTodos.ts:255-263 | the result's ids are exactly the listed ids present in the snapshot, in listed order; unknown ids are ignored |
| UseTodos.TodoMapAt | src/hooks/useTodos.ts:256-258 | with distinct ids, the map finds each todo by its id |
| UseTodos.ReorderPermutation | src/hooks/useTodos.ts:255-263 | when the listed ids are a permutation of the snapshot's distinct ids, the result lists exactly those todos in that order |
| UseTodos.AllKnown | src/hooks/useTodos.ts:259-261 | when every listed id is in the snapshot, none is filtered out |
| UseTodos.CreateOnMutate | src/hooks/useTodos.ts:63-93 | create snapshots its key; only when there is a snapshot it installs the snapshot with the optimistic todo appended; returns key, snapshot and temp id |
| UseTodos.UpdateOnMutate | src/hooks/useTodos.ts:140-158 | update snapshots the key `sourceToQueryKey` gives and, only when there is a snapshot, installs the patched todos |
| UseTodos.DeleteOnMutate | src/hooks/useTodos.ts:190-206 | delete snapshots its key and, only when there is a snapshot, installs the filtered todos |
| UseTodos.ReorderOnMutate | src/hooks/useTodos.ts:243-267 | reorder snapshots its key and, only when there is a snapshot, installs the todos in the order of the listed ids |
| UseTodos.OnError | src/hooks/useTodos.ts:94-98 | on error the mutation's key is set back to its snapshot when there was one (the query is created last if it was not there), otherwise nothing changes; nothing is invalidated; the four mutations share this handler (also lines 159-163, 207-211, 268-272) |
| UseTodos.OnSettled | src/hooks/useTodos.ts:99-103 | on settle exactly the mutation's own key is invalidated and the data is untouched; shared by the four mutations (also lines 164-168, 212-216, 273-277) |
| UseTodos.RollbackRestores | src/hooks/useTodos.ts:85-98 | on the data map: installing any optimistic todos under a key whose snapshot is held and then writing the snapshot back gives the map before the mutation |
| UseTodos.Installed | src/hooks/useTodos.ts:86-89 | no contract of its own; specified by the onMutate methods' ensures and by RollbackRestores |
| UseTodos.FailedCreate | src/hooks/useTodos.ts:63-98 | a create whose request fails leaves the cache's data, its query order and its stale keys as they were before `onMutate` |
| UseTodos.FailedUpdate | src/hooks/useTodos.ts:140-163 | an update whose request fails leaves the cache's data, its query order and its stale keys as they were before `onMutate` |
| UseTodos.FailedDelete | src/hooks/useTodos.ts:190-211 | a delete whose request fails leaves the cache's data, its query order and its stale keys as they were before `onMutate` |
| UseTodos.FailedReorder | src/hooks/useTodos.ts:243-272 | a reorder whose request fails leaves the cache's data, its query order and its stale keys as they were before `onMutate` |
| UseTodos.ScopedKey | src/hooks/useTodos.ts:119-125 | on a valid source key, update, delete and reorder all touch the entry of the source the key names |
| ArrayOps.FindIndex | src/components/DndProvider.tsx:215-216 | `findIndex` is the first index with the id, or -1 iff no todo has it |
| ArrayOps.Find | src/components/DndProvider.tsx:224 | `find` is the todo at `findIndex`, or nothing iff no todo has the id |
| ArrayOps.InsertAt | src/components/DndProvider.tsx:252-253 | `splice(i, 0, x)` adds x once and keeps every other element |
| ArrayOps.InsertAtSpec | src/components/DndProvider.tsx:252-253 | x lands at i, or at the end when i is past it; the elements before stay and those after shift by one |
| ArrayOps.ArrayMove | src/components/DndProvider.tsx:220 | `arrayMove` keeps the length and puts the element from `from` at `to` |
| ArrayOps.ArrayMovePermutes | src/components/DndProvider.tsx:220 | a move is a permutation |
| ArrayOps.ArrayMoveSame | src/components/TodoDndProvider.tsx:72-73 | moving an element onto its own index changes nothing |
| ArrayOps.ArrayMoveBack | src/components/DndProvider.tsx:220 | moving back undoes a move |
| ArrayOps.ArrayMoveAt | src/components/DndProvider.tsx:220 | where each element of the moved array comes from |
| ArrayOps.IdsArrayMove | src/components/DndProvider.tsx:220-221 | moving the todos and then taking ids is moving the ids |
| ArrayOps.MovedIdsPermute | src/components/DndProvider.tsx:220-221 | the ids after a move are a permutation of the ids before |
| DndProvider.FirstIndex | src/components/DndProvider.tsx:129-136 | the first container from i on whose todos hold the id; none before it holds it |
| DndProvider.FirstContaining | src/components/DndProvider.tsx:129-136 | the container found holds the id; none means no registered container holds it |
| DndProvider.DropTarget | src/components/DndProvider.tsx:196-204 | the target is never the falsy id `""`; it is the container found by the scan whenever that is not `""`, and otherwise exactly the dropped-on id when that is a registered, non-empty container id (a drop on an empty column), else none |
| DndProvider.InsertIndex | src/components/DndProvider.tsx:227-234 | the insert index never exceeds the destination's length |
| DndProvider.SourceWritten | src/components/DndProvider.tsx:240-247 | the source's write creates no cache entry |
| DndProvider.Without | src/components/DndProvider.tsx:107-109 | the registration order less one container, keeping the others and their distinctness |
| DndProvider.Provider.constructor | src/components/DndProvider.tsx:94-101 | an empty registry, an idle drag and no requests |
| DndProvider.Provider.Register | src/components/DndProvider.tsx:103-105 | `register` stores the todos under the id; a new id goes last and a known one keeps its place |
| DndProvider.Provider.Unregister | src/components/DndProvider.tsx:107-109 | `unregister` removes only that container |
| DndProvider.Provider.FindContainerForTodo | src/components/DndProvider.tsx:129-136 | the scan returns the first container, in registration order, holding the id, or null |
| DndProvider.Provider.HandleDragStart | src/components/DndProvider.tsx:138-154 | an id in no container, or found only in the falsy container `""`, changes nothing; otherwise the drag holds the id and its todo, and both sources are its container |
| DndProvider.Provider.HandleDragOver | src/components/DndProvider.tsx:156-176 | no target clears `overSource`; a resolved target (never `""`) replaces it; an unresolved or falsy one leaves the state |
| DndProvider.Provider.HandleDragCancel | src/components/DndProvider.tsx:272-279 | cancel makes the drag idle and issues nothing |
| DndProvider.Provider.HandleDragEnd | src/components/DndProvider.tsx:178-270 | the drag is idle afterwards in every case; the cache and requests are exactly those of the drop rule, which ends at once for an empty source or target container id |
| DndProvider.Provider.WriteSource | src/components/DndProvider.tsx:240-247 | the source's cached todos, if any, lose the dragged id; nothing else changes |
| DndProvider.Provider.MoveAcross | src/components/DndProvider.tsx:236-268 | the cross-container branch: two cache writes, the move, then the follow-up reorder when the rule asks for one |
| DndProvider.NoDropCases | src/components/DndProvider.tsx:192-209 | no target, no drag in progress, a falsy source container `""`, an unresolved target (a target only in the container `""` among them) or an unregistered source: no drop, and no drop issues a request whatever the cache |
| DndProvider.EmptyContainerIgnored | src/components/DndProvider.tsx:196-206 | an item found only in the container `""`, whose id is not itself a container, is no drop target, so the drop issues nothing |
| DndProvider.EmptyContainerExample | src/components/DndProvider.tsx:196-206 | with containers `"src"` holding a and `""` holding b, the scan finds `""` for b, yet dropping a on b is no drop |
| DndProvider.EmptyContainerDrop | src/components/DndProvider.tsx:199-234 | a drop on an empty registered container from another registered container holding the todo moves that todo to the end of it |
| DndProvider.CrossContainerDrop | src/components/DndProvider.tsx:206-225 | a target resolving to another registered container, from a registered container holding the todo, is a move of that todo between the two |
| DndProvider.SameContainerDrop | src/components/DndProvider.tsx:211-221 | a drop on another item of the dragged todo's own container, where the target resolves, asks that container to reorder |
| DndProvider.PlanDrop | src/components/DndProvider.tsx:192-234 | no contract of its own; specified by NoDropCases, EmptyContainerIgnored and DropOnSelf (no drop), by EmptyContainerDrop, CrossContainerDrop and SameContainerDrop (a drop happens), and by SameReorderPermutes and CrossMoveTarget (what it contains) |
| DndProvider.CacheAfter | src/components/DndProvider.tsx:236-258 | no contract of its own; specified by CrossMoveSource, CrossMoveDestination and CrossMoveFrame |
| DndProvider.EffectsOf | src/components/DndProvider.tsx:260-268 | no contract of its own; specified by FollowUpIssued and FollowUpIds |
| DndProvider.DropOnSelf | src/components/DndProvider.tsx:213 | dropping an item on itself issues nothing |
| DndProvider.SameReorderPermutes | src/components/DndProvider.tsx:211-221 | a drop in one container asks it for a permutation of its ids, with the dragged id at the target's index |
| DndProvider.CrossMoveTarget | src/components/DndProvider.tsx:222-234 | a drop on another container moves a todo of the source; it goes at the target item's index when found there, else at the end |
| DndProvider.CrossMoveSource | src/components/DndProvider.tsx:240-247 | after the drop the source's cached todos lack the dragged id |
| DndProvider.CrossMoveDestination | src/components/DndProvider.tsx:249-258 | the destination's cached todos gain the dragged todo at the insert index, the others before and after it in order |
| DndProvider.CrossMoveFrame | src/components/DndProvider.tsx:236-258 | no other cache entry is written and none is created |
| DndProvider.FollowUpIssued | src/components/DndProvider.tsx:260-268 | the move is always issued first; a follow-up reorder comes iff the destination is cached and the index is not its length |
| DndProvider.FollowUpIds | src/components/DndProvider.tsx:264-267 | the follow-up lists the destination's ids with the dragged id spliced in at the insert index |
| TodoDndProvider.FirstHolding | src/components/TodoDndProvider.tsx:39-52 | the first query from i on of that kind whose data holds the item; none before it does |
| TodoDndProvider.ContainerForSpec | src/components/TodoDndProvider.tsx:34-57 | the found query holds the item; a list query is chosen only when no day query holds it; nothing iff no query holds it |
| TodoDndProvider.DayContainerKey | src/components/TodoDndProvider.tsx:41 | no contract of its own; specified by SourceQueryKeyWellFormed and ContainerKeyRoundTrip |
| TodoDndProvider.ListContainerKey | src/components/TodoDndProvider.tsx:50 | no contract of its own; specified by SourceQueryKeyWellFormed and ContainerKeyRoundTrip |
| TodoDndProvider.ContainerFor | src/components/TodoDndProvider.tsx:34-57 | no contract of its own; specified by ContainerForSpec and FindContainerForItem |
| TodoDndProvider.FindContainerForItem | src/components/TodoDndProvider.tsx:34-57 | the two scans, day queries then list queries, return `ContainerFor` |
| TodoDndProvider.ReorderWhen | src/components/TodoDndProvider.tsx:59-78 | a reorder is requested iff there is a target, the item's container is found, and both indices are found and differ |
| TodoDndProvider.PlanReorder | src/components/TodoDndProvider.tsx:59-78 | no contract of its own; specified by ReorderWhen, ReorderPermutes and FoundKeyRoundTrip |
| TodoDndProvider.ReorderPermutes | src/components/TodoDndProvider.tsx:72-77 | the request names the container's key, its ids are a permutation of the cached ids, and the dragged id sits at the target's index |
| TodoDndProvider.SourceQueryKeyWellFormed | src/components/TodoDndProvider.tsx:41-50 | the provider rebuilds the source key of every valid source from that source's query key |
| TodoDndProvider.ContainerKeyRoundTrip | src/components/TodoDndProvider.tsx:41-50 | the built key maps back to the query key it came from |
| TodoDndProvider.FoundKeyRoundTrip | src/components/TodoDndProvider.tsx:34-77 | a found container's key is read back by the reorder mutation as the query key it was found under |
| TodoDndProvider.ReorderByMovedIds | src/components/TodoDndProvider.tsx:73-76 | with distinct ids, reordering a snapshot by its moved ids gives the moved todos |
| TodoDndProvider.HandleDragEnd | src/components/TodoDndProvider.tsx:59-79 | the request is the drop rule's; without one the cache is unchanged, with one the reorder mutation's optimistic write is made |
| TodoDndProvider.DropShowsMove | src/components/TodoDndProvider.tsx:69-77 | for a well-formed key whose todos have distinct ids, the cache after a drop shows the container's todos moved by `arrayMove`, and the other entries are unchanged |
| NotebookColumn.EmptyLines | src/components/NotebookColumn.tsx:36-49 | a given count is used as is; without one there is at least one empty line and max(10, n + 1) lines in all |
| NotebookColumn.Created | src/components/NotebookColumn.tsx:88-102 | input creates a todo iff it is not blank |
| NotebookColumn.CreatedTidy | src/components/NotebookColumn.tsx:89-102 | the created text has no white space at either end and is stable under another trim |
| NotebookColumn.DragReorderSpec | src/components/NotebookColumn.tsx:69-80 | a reorder is asked for iff there is another target, a callback, and both ids are in the column; its ids are a permutation with the dragged id at the target's index |
| NotebookColumn.DragReorder | src/components/NotebookColumn.tsx:69-80 | no contract of its own; specified by DragReorderSpec |
| NotebookColumn.Column.constructor | src/components/NotebookColumn.tsx:50-51 | no open line and an empty input |
| NotebookColumn.Column.HandleLineClick | src/components/NotebookColumn.tsx:82-85 | the clicked line opens with an empty input |
| NotebookColumn.Column.OnChange | src/components/NotebookColumn.tsx:51 | typing sets the input |
| NotebookColumn.Column.Submit | src/components/NotebookColumn.tsx:88-91 | Enter on text creates exactly one todo with the trimmed text, clears the input and opens the next line |
| NotebookColumn.Column.HandleEnter | src/components/NotebookColumn.tsx:88-93 | Enter creates and advances on text; on blank input it only closes the line |
| NotebookColumn.Column.HandleKeyDown | src/components/NotebookColumn.tsx:87-98 | Enter as above; Escape closes and clears without creating; other keys change nothing |
| NotebookColumn.Column.HandleBlur | src/components/NotebookColumn.tsx:100-106 | blur creates only for non-blank input, and always closes and clears |
| NotebookColumn.Column.HandleDragEnd | src/components/NotebookColumn.tsx:69-80 | the column sends exactly the reorder `DragReorder` names, or nothing |
| TodoItem.SavedText | src/components/TodoItem.tsx:33-37 | an edit is sent iff its trim is non-empty and differs from the todo's text; what is sent is that trim |
| TodoItem.SaveUnchanged | src/components/TodoItem.tsx:28-37 | for a todo whose text is already trimmed, opening and saving at once sends nothing (a stored text with surrounding white space would be sent back trimmed) |
| TodoItem.TogglePatch | src/components/TodoItem.tsx:59 | the checkbox sends only the flipped completion |
| TodoItem.ToggleTwice | src/components/TodoItem.tsx:59 | applied, the toggle flips completion and keeps the rest; a second toggle restores the todo |
| TodoItem.SaveApplied | src/components/TodoItem.tsx:33-37 | applied, a saved edit changes the text to the trim and nothing else |
| TodoItem.Item.constructor | src/components/TodoItem.tsx:17-18 | the row starts closed with the todo's text in the editor |
| TodoItem.Item.StartEdit | src/components/TodoItem.tsx:28-31 | start editing seeds the editor with the current text |
| TodoItem.Item.OnChange | src/components/TodoItem.tsx:76 | typing sets the edit text |
| TodoItem.Item.SaveEdit | src/components/TodoItem.tsx:33-39 | save sends the saved text, if any, for this todo and always closes the editor |
| TodoItem.Item.CancelEdit | src/components/TodoItem.tsx:41-44 | cancel puts the text back and closes, sending nothing |
| TodoItem.Item.HandleKeyDown | src/components/TodoItem.tsx:46-53 | Enter saves, Escape cancels, other keys do nothing |
| TodoItem.Item.Toggle | src/components/TodoItem.tsx:59 | the checkbox sends the flipped completion for this todo |
| TodoItem.Item.Delete | src/components/TodoItem.tsx:105 | the delete button asks at once for this todo's deletion |
| ListColumn.Renamed | src/components/ListColumn.tsx:61-65 | a name is sent iff there is a callback, the trim is non-empty and differs from the list's name; what is sent is the trim |
| ListColumn.Column.constructor | src/components/ListColumn.tsx:49-51 | the header starts closed, holding the list's name, with no dialog |
| ListColumn.Column.ClickHeader | src/components/ListColumn.tsx:92-95 | clicking the name opens the editor seeded with the list's name |
| ListColumn.Column.OnChange | src/components/ListColumn.tsx:85 | typing sets the name text |
| ListColumn.Column.SaveName | src/components/ListColumn.tsx:61-67 | save sends the renamed name, if any, and always closes the editor |
| ListColumn.Column.HandleNameKeyDown | src/components/ListColumn.tsx:69-75 | Enter saves; Escape restores the list's name and closes without a callback |
| ListColumn.MoveEnabled | src/components/ListColumn.tsx:102-119 | no contract of its own; specified by Column.PressMove |
| ListColumn.Column.PressMove | src/components/ListColumn.tsx:102-147 | a move is sent, one place that way, only with a callback and not from the end it points past |
| ListColumn.Column.ClickDelete | src/components/ListColumn.tsx:148-158 | the delete button only raises the confirmation flag |
| ListColumn.Column.OnOpenChange | src/components/ListColumn.tsx:176-180 | dismissing the dialog clears the flag; opening requests are ignored |
| ListColumn.Column.Confirm | src/components/ListColumn.tsx:192-197 | confirming asks for the deletion once, when there is a callback, and clears the flag |
| TabBar.Rename | src/components/TabBar.tsx:41-46 | a rename is sent iff a tab is being edited (an empty id counts as none) and the trimmed text is non-empty; no check against the current name |
| TabBar.Marked | src/components/TabBar.tsx:55-71 | each tab is marked iff its id is the given id |
| TabBar.MarkedCount | src/components/TabBar.tsx:55-71 | with distinct ids at most one tab is marked, and exactly one when the id is present |
| TabBar.OneActive | src/components/TabBar.tsx:56-71 | with distinct tab ids, exactly the active tab is shown active when it is among the tabs, and at most one tab shows the editor (with a repeated id every copy is marked) |
| TabBar.Bar.constructor | src/components/TabBar.tsx:25-26 | no tab is being edited and the text is empty |
| TabBar.Bar.Click | src/components/TabBar.tsx:62 | a click selects that tab |
| TabBar.Bar.ClickAdd | src/components/TabBar.tsx:89-97 | the add button asks for a new tab |
| TabBar.Bar.StartEdit | src/components/TabBar.tsx:36-63 | a double click edits exactly that tab, seeded with its name |
| TabBar.Bar.OnChange | src/components/TabBar.tsx:76 | typing sets the edit text |
| TabBar.Bar.SaveEdit | src/components/TabBar.tsx:41-46 | save sends the rename, if any, and always closes the editor |
| TabBar.Bar.HandleKeyDown | src/components/TabBar.tsx:48-51 | Enter saves; Escape closes without sending; other keys do nothing |

## Left out

- HTTP and JSON: request parsing, status codes other than the move route's 400, and response bodies are not modelled. Routes take their inputs as parameters and return values.
- Redis is an abstract store: one optional `tabs` array and a map of sorted sets. A pipeline runs its commands one after another, with no failure part-way. Scores are integers.
- Regular expressions: each markdown pass's matcher is an oracle for ordered, non-overlapping, non-empty matches. The six patterns, the capture groups and the rendered JSX are not modelled. An element keeps its pass, its key numbers and the span it came from.
- Strings are sequences of characters. UTF-16 code units and surrogate pairs are not modelled.
- `Date` is a civil (year, month, day) triple. Time of day, time zones, daylight saving and dates outside a real month are not modelled. The current date (`new Date()`) and `Date.now()` are parameters.
- `generateId` (nanoid) is a parameter of the tabs POST; its randomness and uniqueness are not modelled.
- React Query is a class with data, query order and an invalidated set. `cancelQueries`, refetching, key hashing and prefix matching of invalidation are not modelled. Concurrent mutations and their interleaving are not modelled either.
- `useMoveTodo`, `useReorderTodo` and the exported `sourceToQueryKey` imported by `src/components/DndProvider.tsx:23` are not defined in `src/hooks/useTodos.ts`. Their mutations are therefore recorded as requests (`DndProvider.Effect`) and their own cache effects are not part of this model.
- The cross-container drop in `DndProvider` has no rollback of its two optimistic cache writes in the source, and none is claimed.
- dnd-kit: sensors, collision detection, overlays and the `over` resolution are outside. Each handler receives the active id and the optional over id.
- Presentation: class names, focus and select effects, aria labels, `getDayLabel`, `getDateLabel` and `cn` are not modelled.
- Validation.IsValidText: the source takes an `unknown` argument and rejects every non-string (a number, `null`, `undefined`) through its `typeof` test; the model's argument is a string, so that rejection is outside it.
- Validation.IsValidName: as for IsValidText, the rejection of non-string arguments by the `typeof` test is outside the string-typed model.
- TodoItem.Item.Delete: follows `src/components/TodoItem.tsx:103-111`, where the delete button calls `onDelete` at once; the component tests (`src/__tests__/components/TodoItem.test.tsx:76-157`) expect a confirm and cancel step with an auto-dismiss that the component does not have, and the model does not have it either.
- UseTodos.ApplyPatch: an update field present but explicitly `undefined` overwrites the todo's field in JavaScript; the model's absent field keeps it.
- The list header's delete and move buttons are drawn only when their callbacks exist. The model takes that as a flag on each press.
- The tab bar's `onDeleteTab` prop is declared but never used, so the bar has no delete path to model.
- Key events other than Enter and Escape are modelled only as "another key".
- The blur handlers of the todo row, the list header and the tab bar call the same save as Enter. They have no separate member.
- The list routes, the todo CRUD routes, the tab update and delete routes, `useTabs`, the views (`CalendarView`, `ListView`, `DayColumn`, `TopBar`, `BottomSheet`, `MoveToMenu`) and the font preview pages are not part of this model.

# TaskMaster Pro: task list and user directory logic

A Dafny model of the list and arithmetic logic inside the two feature
components of the single-page React application in `src/App.jsx`:

- **`TaskManager`** keeps a list of `{id, text, completed}` tasks, a draft
  string and a filter value. Its handlers add a task from the draft (a no-op
  when the trimmed draft is empty), toggle a task's `completed` flag by id and
  delete tasks by id. Its view shows the tasks the filter (`all`, `active`,
  `completed`) selects, and the filter buttons carry counts computed from the
  full list.
- **`UserList`** holds the user list fetched once from a REST endpoint. It
  keeps the users whose lower-cased name or email contains the lower-cased
  search text, shows them in pages of six, and moves between pages with
  Previous/Next buttons. Previous is clamped at page 1 and Next at
  `totalPages`. The page number is not reset when the search narrows.

Layout:

- `js_array.dfy`, module `JsArray`: the two JavaScript array methods the views are
  built from. `Filter` models `Array.prototype.filter`, with its order,
  membership, multiplicity and partition lemmas. `Slice` models
  `Array.prototype.slice`, including negative indices and clamping.
- `js_string.dfy`, module `JsString`: `trim` (with the ECMAScript whitespace set),
  `toLowerCase` (ASCII letters) and `includes`.
- `tasks.dfy`, module `Tasks`: the `Task` datatype; the pure views
  `Toggled`, `Without`, `FilteredTasks`, `ActiveCount` and `CompletedCount`,
  with their lemmas; and the class `TaskManager` whose fields are the
  component's state (`tasks`, `taskInput`, `filter`) and whose methods are its
  handlers. `ExampleSession` is a client of the class. Starting from an empty
  list, it adds "Buy milk" and "Call Bob", ticks the first, selects `active`,
  and proves that only "Call Bob" is shown with counts 2/1/1.
- `users.dfy`, module `Users`: the `User` datatype; search, `TotalPages`,
  `CurrentUsers` and the two clamps as functions with lemmas; and the class
  `UserList` with fields `users`, `search` and `currentPage`, and methods for
  the search box and the two buttons.

Details of the code's behaviour the model keeps:

- `toggleTask` and `deleteTask` act on every task carrying the id, not on
  "the" matching task. The model does the same. It proves that deleting a
  present id removes exactly one task, and that both handlers keep ids
  unique, only for lists whose ids are already unique.
- The add handler stores the draft as typed, untrimmed. Only the emptiness
  test uses the trimmed text.
- `Date.now()` does not guarantee a fresh id. `AddTask` takes the id as a
  parameter and keeps ids unique only when that id is not in use yet.
- The Previous and Next buttons are given a `disabled` prop, but `Button`
  (src/App.jsx:33-47) does not pass it on, so both stay clickable on the
  first and last page. The clamps alone keep the page in range there.

## Model

| member | source | states |
|---|---|---|
| `JsArray.Filter` | src/App.jsx:135-139 | `filter` returns no more elements than its input; an element is in the result exactly when it is in the input and satisfies the predicate |
| `JsArray.FilterIsSubsequence` | src/App.jsx:135-139 | the result of `filter` is an order-preserving subsequence of its input |
| `JsArray.FilterMultiplicity` | src/App.jsx:135-139 | `filter` keeps each accepted element exactly as often as the input holds it, and holds no rejected element |
| `JsArray.FilterComplementLength` | src/App.jsx:170-177 | filtering by a predicate and by its negation gives lengths that add up to the input's length |
| `JsArray.FilterCongruent` | src/App.jsx:238-241 | two predicates that agree on every element give the same filtered list |
| `JsArray.FilterKeepsAll` | src/App.jsx:138 | a predicate that accepts every element returns the input unchanged |
| `JsArray.SliceIndex` | src/App.jsx:245 | a `slice` argument resolves into `[0, n]`: a non-negative one in range is kept, a negative one counts back from the end, one past either end is clamped to that end |
| `JsArray.Slice` | src/App.jsx:245 | from a non-negative start, `slice` returns the elements starting at `start`, in order, and its length is the part of `[start, end)` inside the list |
| `JsString.TrimStart` | src/App.jsx:119 | the result is a suffix of the input; everything removed is whitespace; the result does not begin with whitespace; a blank input gives the empty string |
| `JsString.TrimEnd` | src/App.jsx:119 | the result is a prefix of the input; everything removed is whitespace; the result does not end with whitespace |
| `JsString.Trim` | src/App.jsx:119 | the trimmed draft begins and ends with a non-whitespace character, and is empty (falsy) exactly when the draft is all whitespace |
| `JsString.ToLower` | src/App.jsx:239-240 | lower-casing keeps the length and maps each character through the ASCII case map |
| `JsString.ToLowerIdempotent` | src/App.jsx:239-240 | a lower-cased string holds no upper-case letter, and lower-casing it again changes nothing |
| `JsString.IncludesIffOccurs` | src/App.jsx:239-240 | `includes` holds exactly when the needle occurs at some position of the haystack |
| `JsString.Includes` | src/App.jsx:239-240 | the empty search text occurs in every string, and no text occurs in a shorter one |
| `Tasks.Toggled` | src/App.jsx:125-128 | toggling keeps length, order, ids and texts, and flips `completed` exactly on the tasks whose id matches |
| `Tasks.ToggleTwiceRestores` | src/App.jsx:125-128 | toggling the same id twice restores the original list |
| `Tasks.ToggleAbsentIsNoop` | src/App.jsx:125-128 | toggling an id no task carries leaves the list unchanged |
| `Tasks.ToggleKeepsUniqueIds` | src/App.jsx:125-128 | toggling keeps ids unique |
| `Tasks.Without` | src/App.jsx:131-133 | the list after delete is no longer than before and holds exactly the tasks whose id differs |
| `Tasks.DeleteKeepsOthers` | src/App.jsx:131-133 | delete keeps exactly the tasks whose id differs, with their multiplicities, in their original order; the id is gone afterwards |
| `Tasks.DeleteAbsentIsNoop` | src/App.jsx:131-133 | deleting an absent id is a no-op |
| `Tasks.DeleteIdempotent` | src/App.jsx:131-133 | deleting the same id twice equals deleting it once |
| `Tasks.DeleteRemovesOne` | src/App.jsx:131-133 | with unique ids, deleting a present id shortens the list by exactly one |
| `Tasks.DeleteKeepsUniqueIds` | src/App.jsx:131-133 | deleting keeps ids unique |
| `Tasks.Shows` | src/App.jsx:135-139 | any filter value other than `active` and `completed` shows every task |
| `Tasks.FilteredTasks` | src/App.jsx:135-139 | the view is no longer than the list and holds exactly the tasks the filter shows |
| `Tasks.FilteredTasksSelect` | src/App.jsx:135-139 | the view is an order-preserving subsequence of the tasks with the shown tasks' multiplicities: `active` keeps exactly the incomplete tasks, `completed` exactly the completed ones, any other value everything |
| `Tasks.ActiveCount` | src/App.jsx:170 | the Active count is at most the All count and is zero exactly when every task is completed |
| `Tasks.CompletedCount` | src/App.jsx:177 | the Completed count is at most the All count and is zero exactly when no task is completed |
| `Tasks.CountsAddUp` | src/App.jsx:163-177 | Active count plus Completed count equals the All count `tasks.length` |
| `Tasks.CountsMatchViews` | src/App.jsx:163-177 | each button's count, computed from the full list, equals the length of the view that button selects |
| `Tasks.TaskManager.constructor` | src/App.jsx:114-116 | on mount: the stored tasks, an empty draft and the `all` filter |
| `Tasks.TaskManager.SetTaskInput` | src/App.jsx:149 | typing replaces the draft and nothing else |
| `Tasks.TaskManager.SetFilter` | src/App.jsx:160 | a filter button replaces the filter and nothing else |
| `Tasks.TaskManager.AddTask` | src/App.jsx:118-123 | a blank draft leaves tasks and draft unchanged; otherwise exactly one task `{now, draft as typed, false}` is appended after the unchanged earlier tasks and the draft is cleared; ids stay unique when `now` is unused |
| `Tasks.TaskManager.ToggleTask` | src/App.jsx:125-129 | the list becomes `Toggled` of the old list; draft and filter unchanged; ids stay unique |
| `Tasks.TaskManager.DeleteTask` | src/App.jsx:131-133 | the list becomes `Without` of the old list; draft and filter unchanged; ids stay unique |
| `Users.MatchesSearch` | src/App.jsx:238-241 | an empty search matches every user; a search longer than both the name and the email matches none |
| `Users.FilteredUsers` | src/App.jsx:238-241 | the search result is no longer than the user list and holds exactly the matching users |
| `Users.SearchKeepsMatches` | src/App.jsx:238-241 | the search result is an order-preserving subsequence of the users and keeps a user, as often as it occurs, exactly when its lower-cased name or email contains the lower-cased search |
| `Users.EmptySearchKeepsAll` | src/App.jsx:238-241 | an empty search keeps every user |
| `Users.SearchIgnoresCase` | src/App.jsx:238-241 | search texts that lower-case alike select the same users |
| `Users.NameFragmentFindsUser` | src/App.jsx:239 | under the ASCII case map, any piece of a user's name, typed in any case, finds that user |
| `Users.UpperCaseSearchFindsAnna` | src/App.jsx:239 | searching "ANN" finds a user named "Anna" |
| `Users.TotalPages` | src/App.jsx:246 | `totalPages` is the ceiling of `n / 6`: the fewest pages of six that hold `n` users |
| `Users.CurrentUsers` | src/App.jsx:243-245 | the current page holds at most six users, and from page 1 on they are the users that follow position `(p-1)*6`, in order |
| `Users.PageIsSlice` | src/App.jsx:243-245 | from page 1 on, the current page is `filtered[(p-1)*6 .. min(p*6, n)]`, holds at most six users, and is empty when `(p-1)*6 >= n` |
| `Users.PagesUpToIsPrefix` | src/App.jsx:243-245 | pages 1 to k read in order are the first `min(6k, n)` users |
| `Users.PagesPartition` | src/App.jsx:243-246 | pages 1 to `totalPages` read in order give back the whole search result; each of them is non-empty; all but the last hold six |
| `Users.ThirteenUsersMakeThreePages` | src/App.jsx:243-246 | 13 users make 3 pages, and page 3 holds 1 user |
| `Users.ControlsShown` | src/App.jsx:298 | the pagination bar is rendered exactly when more than six users match |
| `Users.NarrowedSearchStrandsPage` | src/App.jsx:243-246 | a page past the end shows no user, and with six or fewer matches the bar is not rendered either |
| `Users.PreviousPage` | src/App.jsx:301 | Previous never goes below page 1; above page 1 it goes back one page |
| `Users.NextPage` | src/App.jsx:311 | Next never goes past `totalPages`; below it Next advances one page; from `totalPages` or beyond it lands on `totalPages` |
| `Users.ClampsStayInRange` | src/App.jsx:298-316 | from a page in `[1, totalPages]` both buttons stay in that range; Previous on page 1 and Next on the last page (which the source means to disable, but `Button` drops the prop, so they stay clickable) leave the page unchanged |
| `Users.PreviousUndoesNext` | src/App.jsx:301-311 | away from the ends, Previous undoes Next and Next undoes Previous |
| `Users.UserList.constructor` | src/App.jsx:212-216 | after the fetch: the fetched users, an empty search, page 1 |
| `Users.UserList.SetSearch` | src/App.jsx:272 | the search text is replaced; the page is not reset |
| `Users.UserList.Previous` | src/App.jsx:298-305 | only while the bar is shown: the page becomes `max(page - 1, 1)`; it stays at least 1 |
| `Users.UserList.Next` | src/App.jsx:298-315 | only while the bar is shown: the page becomes `min(page + 1, totalPages)`; it stays between 1 and `totalPages` |

## Left out

- `useLocalStorage` (src/App.jsx:10-30) is browser storage with JSON encoding and logged failures. The model takes the stored list as the `TaskManager` constructor's argument. It does not model writing the list back after each change.
- The fetch and its `loading`/`error` states (src/App.jsx:219-236), and the Retry button's page reload (src/App.jsx:260), are network I/O. `UserList` starts from the state after a successful fetch, with the fetched array as its argument.
- The fetched records are assumed to have string `name` and `email` fields. A record without one would make the source throw during search; the model does not cover that.
- `Date.now()` (src/App.jsx:120) is replaced by the `now` parameter of `AddTask`. The clock itself is not modelled, nor whether two adds in the same millisecond get the same id.
- `toLowerCase` is modelled on the ASCII letters only. Other characters are left unchanged, so Unicode case mapping (for example of accented capitals) is not modelled.
- Users.NameFragmentFindsUser: holds only under the ASCII case map. JavaScript's `toLowerCase` maps some characters by context, such as a final capital sigma, so in the source a lower-cased piece of a name need not occur in the lower-cased name.
- `Math.ceil` works on a floating-point quotient in the source. The model uses exact integer ceiling division; the two agree for any list length a browser can hold.
- The dark-mode flag, `ThemeContext` and its DOM class toggling (src/App.jsx:325-339) are a boolean flip plus DOM side effects.
- The top-level view switch (src/App.jsx:326, src/App.jsx:357) is a single value replacement. It unmounts the inactive component, which discards that component's draft, filter, search and page; the model treats each component separately.
- `Button`, `Card`, `Navbar` (including its unused `activeTab` state), `Footer` and all markup and styling are presentation only. The empty-state message of the task list is one such piece of markup.

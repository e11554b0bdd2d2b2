# Task list store and view — a Dafny model

This project models the logic of a browser to-do list (`script.js`). The
list's event handlers are recast as pure functions over an immutable
sequence of task records:

- **Store mutations.** Add a task from the form, toggle completion on a
  click, delete, mark all done, clear all (after confirmation), edit a text
  inline, and import a file.
- **Derived view.** The list shown on screen filters the tasks by mode
  (`all` / `active` / `completed`) and by a case-insensitive search on text
  or tag. It then sorts them stably by descending priority: high 3,
  medium 2, low 1, with a missing priority counted as medium.
- **Counters.** Total, completed and active counts, and the progress ring's
  zero-total guard.

Modules, one per concern:

| file | module | contents |
|---|---|---|
| `text.dfy` | `Text` | `trim` (ECMAScript white space and line terminators), ASCII `toLowerCase`, `includes` |
| `seqs.dfy` | `Seqs` | order-preserving subsequence |
| `tasks.dfy` | `Tasks` | the `Task` record, priority scores, the list invariant (unique ids, trimmed non-empty texts), lookup by id |
| `store.dfy` | `TaskStore` | add, toggle, delete, mark-all-done, inline edit; each keeps the list invariant |
| `view.dfy` | `View` | filter by mode and search, stable priority sort, the projected view |
| `stats.dfy` | `Stats` | the counters and the progress-ring offset |
| `app.dfy` | `App` | page state (tasks, mode, query), the UI events, clear-all, import |

The sort is specified by an independent reference order, `View.Bucketed`:
the high tasks, then the medium ones, then the low ones, each group in its
input order. `View.StableSortUnique` proves that any sorted list keeping
each priority's tasks in input order equals this reference. So the
insertion sort modelled here gives the same result as the engine's stable
`Array.prototype.sort`, which section 23.1.3.30 of ECMA-262 (2023) requires
to be stable.

Details of `script.js` the model keeps:

- Toggle and delete act on every task carrying the id, not on "the" task.
  This matters after an import with duplicate ids, or when `Date.now()`
  repeats a value (a clock set back, say).
- Inline edit compares the trimmed new text with the stored text.
- The default tag `Général` is applied when a task is added. The search
  tests the stored tag, and skips it when it is empty.
- A non-array import is ignored without any message.

## Model

| member | source | states |
|---|---|---|
| `Text.Trim` | script.js:56 | the result is an infix of the input, with only white space cut on either side and none left at its ends; it is empty exactly when the input is blank |
| `Text.TrimFixpoint` | script.js:183-184 | a string is its own trim exactly when it has no white space at either end; trimming is idempotent |
| `Text.Lower` | script.js:82 | same length, no ASCII capital left, capitals shifted to their lower-case letter, every other character kept |
| `Text.Includes` | script.js:144-145 | true exactly when the query occurs as a contiguous infix at some position |
| `Text.IncludesEmpty` | script.js:144 | the empty query is contained in every string |
| `Tasks.Score` | script.js:150 | scores lie in 1..3; high is the only 3 and low the only 1 |
| `Tasks.CountId` | script.js:117 | the number of tasks with an id is at most the length, and zero exactly when no task has it |
| `Tasks.MissingPriorityIsMedium` | script.js:151 | a task without a priority sorts as medium (score 2); any other task by the score of its own priority |
| `Tasks.Find` | script.js:60 | lookup by the id line 60 assigns, used to state `AddThenFind`: the first task with the id, and nothing exactly when no task has it |
| `Tasks.GoodTextIsTrimmed` | script.js:56-57 | a stored text (non-empty, no white space at the ends) is exactly a non-empty text equal to its own trim |
| `Tasks.ValidSubsequence` | script.js:117 | dropping tasks while keeping the order preserves unique ids and well-formed texts |
| `TaskStore.NewTask` | script.js:59-67 | the new record: trimmed text, the chosen priority, the trimmed tag or `Général` when blank, no due date for an empty date input, not completed |
| `TaskStore.Add` | script.js:55-69 | a blank text leaves the list unchanged; otherwise the old list is an unchanged prefix and the new task is the one extra element at the end |
| `TaskStore.AddThenFind` | script.js:59-69 | with a fresh id, looking the id up after an add yields exactly the submitted fields with `completed` false |
| `TaskStore.Toggle` | script.js:125-128 | same length; `completed` flips exactly on tasks with the id; every other field of every task is unchanged |
| `TaskStore.ToggleInvolutive` | script.js:125-128 | toggling the same id twice gives back the original list |
| `TaskStore.ToggleAbsent` | script.js:125-128 | toggling an id no task has leaves the list equal by value |
| `TaskStore.Delete` | script.js:117 | the result is an ordered subsequence holding exactly the tasks whose id differs; its length drops by the number of matching tasks |
| `TaskStore.DeleteAbsent` | script.js:117 | deleting an id no task has changes nothing |
| `TaskStore.MarkAllDone` | script.js:97 | same length; every task is completed; every other field is kept |
| `TaskStore.MarkAllDoneIdempotent` | script.js:97 | marking all done twice equals marking all done once |
| `TaskStore.EditText` | script.js:182-186 | only the edited task's text can change; it changes exactly when the trimmed new text is non-empty and differs from the old one, and then becomes that trimmed text |
| `TaskStore.EditTextIdempotent` | script.js:182-186 | repeating the same edit changes nothing further |
| `TaskStore.AddKeepsValid` | script.js:55-69 | adding with a fresh id keeps ids unique and texts trimmed and non-empty |
| `TaskStore.ToggleKeepsValid` | script.js:125-128 | toggling keeps the list invariant |
| `TaskStore.DeleteKeepsValid` | script.js:117 | deleting keeps the list invariant |
| `TaskStore.MarkAllDoneKeepsValid` | script.js:97 | mark-all-done keeps the list invariant |
| `TaskStore.EditTextKeepsValid` | script.js:182-186 | inline edit keeps the list invariant |
| `View.ModeMeaning` | script.js:141-143 | `all` admits every task; `active` admits exactly the tasks not completed and `completed` exactly the completed ones |
| `View.SearchMeaning` | script.js:144-145 | true exactly when the query occurs in the lower-cased text, or the tag is non-empty and the query occurs in the lower-cased tag; the empty query matches every task |
| `View.FilterTasks` | script.js:140-147 | the result is a subsequence of the list; a task is in it exactly when it is in the list and passes both the mode test and the search test |
| `View.FilterMultiplicity` | script.js:140-147 | each admitted task occurs in the filtered list exactly as often as in the list, and every other task not at all, so duplicate records are all kept |
| `View.FilterEmptyQuery` | script.js:141-145 | mode `all` with an empty query keeps the whole list |
| `View.FilterPartition` | script.js:140-147 | the `active` and `completed` views together hold each task of the `all` view exactly as often, and share no task |
| `View.Insert` | script.js:151 | inserting into a sorted list keeps it sorted, adds exactly that one task, and puts it ahead of the tasks of its own priority |
| `View.SortByPriority` | script.js:149-151 | the result is sorted by non-increasing score, is a permutation of the input, and keeps each priority's tasks in input order |
| `View.SortedIsBucketed` | script.js:150-151 | a sorted list equals its reference order (high, then medium, then low) |
| `View.StableSortUnique` | script.js:150-151 | every sorted list keeping each priority's tasks in input order equals the reference order and the modelled sort |
| `View.Project` | script.js:140-151 | the view is sorted, a permutation of the filtered subsequence, holds exactly the admitted tasks, and keeps each priority's filtered order |
| `View.ProjectMultiplicity` | script.js:140-151 | the view holds each admitted task exactly as often as the list does, and no other task |
| `View.HighBeforeLow` | script.js:150-151 | a low task added before a high one is shown after it |
| `Stats.CountCompleted` | script.js:201 | the count is at most the length; it is zero exactly when no task is completed and equals the length exactly when all are |
| `Stats.CountCompletedAppend` | script.js:201 | the completed count of a concatenation is the sum of the counts |
| `Stats.Compute` | script.js:199-202 | total is the length; completed plus active is the total; no completed task exactly when completed is 0; no active task exactly when active is 0 |
| `Stats.CountsMatchViews` | script.js:140-147 | the completed and active counts equal the sizes of the unsearched `completed` and `active` views |
| `Stats.RingOffset` | script.js:204-205 | the offset lies between 0 and 440; an empty list gives 440 without dividing; a non-empty list with nothing completed gives 440 through a zero ratio; a non-empty fully completed list gives 0 |
| `Stats.MarkAllDoneCompletesAll` | script.js:97 | after mark-all-done, completed equals total and active is 0 |
| `Stats.AddCounts` | script.js:55-69 | a real add raises total and active by one and leaves completed unchanged |
| `Stats.ToggleCounts` | script.js:125-128 | with unique ids, toggling one task moves it from the completed count to the active one, or the reverse |
| `App.InitialState` | script.js:23-25 | a page with nothing stored starts with a valid empty list, mode `all`, an empty query, an empty view, 0/0 on the counters and the ring at its empty state |
| `App.ClearAll` | script.js:101-107 | the list and query are emptied and the mode kept; counters read 0/0, the ring is at its empty state and the shown view is empty |
| `App.SetSearch` | script.js:81-84 | the stored query is the lower-cased input, contains no capital and is its own lower-case form; tasks and mode are unchanged |
| `App.ImportFile` | script.js:236-245 | an array replaces the list and reports success; an unparsable file leaves the state and reports an error; a non-array leaves the state silently; mode and query never change |
| `App.Step` | script.js:77-123 | only import shows an alert; only the filter buttons change the mode; only search and clear-all change the query; search and filter leave the list alone |
| `App.StepKeepsValid` | script.js:55-128 | every event keeps the list invariant, given a fresh id on add and a valid imported list |
| `App.TaskClickedTwice` | script.js:111-128 | clicking a task twice restores the whole state |
| `App.BuyMilkScenario` | script.js:55-107 | adding "Buy milk" (high, no tag) to an empty list gives one uncompleted task tagged `Général`; toggling it gives 1/1 and a full ring; clear-all gives 0/0 and the empty ring |

## Left out

- DOM work: building the `<li>` elements, the SVG icons, event wiring and
  `stopPropagation` are presentation. The click on a task's text does not
  toggle it; the model covers this by having no event for it.
- The dark/light theme and the clock depend on `setInterval`, `Date` and
  the page.
- Persistence: `localStorage` writes after each change and the initial load
  are I/O. The model starts from `App.Initial`, the state of a page with
  nothing stored.
- Export: serialising to JSON and downloading a file are I/O. Import takes
  the already decoded file as a `Payload`. Records that are not well-formed
  tasks cannot be expressed: an unknown priority gives a NaN comparison.
- `App.ImportFile`: does not model an imported array whose records break
  rendering. The `try` around the import also covers replacing the list and
  saving it. So a record whose `text` is not a string is stored and
  persisted first, and then the search's `toLowerCase` throws. The
  "invalid file" alert then follows a list that was replaced, whereas the
  model's `Unparsable` case leaves the state alone.
- Clicks carry the task's id directly; the program re-reads it with
  `parseInt` from the element's `data-id`, which keeps only the string's
  integer prefix. For an id that is not an integer (2.5 reads as 2), or an
  integer of 1e21 or more (written `1e+21`, read as 1), the click acts on
  the prefix: it toggles or deletes every task whose id equals that number.
  Usually there is none, but it can be a different task.
- `window.confirm` is a foreign call. `ClearConfirmed` is the confirmed
  case; a declined confirmation does nothing.
- Ids and creation stamps come from `Date.now()` and `new Date()`. They are
  parameters of the add event. Id freshness is assumed in three places:
  the `*KeepsValid` lemmas and `App.StepKeepsValid`; `TaskStore.AddThenFind`,
  because a lookup after an add finds the new task only when its id is
  fresh (with a repeated id it finds the older task); and
  `Stats.ToggleCounts`, which assumes unique ids. Nothing in the program
  guarantees freshness.
- Due dates are kept as the raw date-input string; `toLocaleDateString`
  formatting is locale-dependent.
- A filter-button value other than the three modes cannot be expressed.
- The inline edit is identified by the edited task's position in the list,
  because the handler mutates the very object the view shows. The
  contenteditable text span is filled through `innerHTML`, so markup in a
  task's text is rendered and read back differently; the model receives the
  span's text as a plain string. The handler saves without re-rendering, so
  `App.Shown` describes what the next render displays.
- `Text.Lower`: only ASCII capitals are lower-cased. Unicode case mapping
  (`é` from `É`, and so on) is not modelled.
- `Stats.RingOffset`: uses exact real arithmetic. The IEEE double rounding
  of the division and product is not modelled.
- The browser's sort algorithm (TimSort in V8, for instance) is replaced by an
  insertion sort. The output is the same because a stable sort by priority
  is unique (`View.StableSortUnique`).

# ZenDo task list — a Dafny model

ZenDo is a single-user task list. Tasks are added, completed, deleted and filtered. Two AI
helpers sit on top: one proposes new tasks, the other breaks a task down into subtasks. This
project models the application state and its handlers in App.tsx, the new-task form in
components/TodoInput.tsx and the records in types.ts. It also models how
services/geminiService.ts turns a remote answer into a result. Then it proves properties
of that model.

Layout, one module per concern:

- `types.dfy` (`Types`): `Priority`, `Todo`, `Suggestion`, and converting between a
  suggestion and a task.
- `lists.dfy` (`Lists`): `Array.prototype.filter` by predicate (`Where`) and by position
  (`WithoutIndex`), and `Reverse`, which describes what repeated prepending does.
- `gateway.dfy` (`Gateway`): the remote call is an input (`Response`). `Settle` models the
  service module's own error handling, which produces what the application sees (`Reply`).
- `task_list.dfy` (`TaskList`): the list transforms of App.tsx as pure functions, and the
  lemmas about them.
- `todo_input.dfy` (`TodoInput`): `String.prototype.trim`, and the form as a class with
  two fields.
- `app.dfy` (`App`): the application state as a class with five fields: `todos`,
  `suggestions`, `isSuggesting`, `breakingDownId` and `filter`. Each handler is a method.
  The two asynchronous handlers are each split into a step before the await (`Begin…`) and
  a step after it settles (`Finish…`).

Behaviour the model captures on purpose:

- **Breakdown reverses the subtasks.** `subs.forEach(addTodo)` prepends one subtask at a time.
  So the children end up in reverse of the returned order, ahead of the remaining tasks
  (`TaskList.BreakdownLayout`, `TaskList.BreakdownExample`).
- **An answer that cannot be parsed still deletes the task.** `getSubtasks` turns a parse
  failure into `[]`. An empty list removes the parent and adds nothing. Only a rejected
  remote call keeps the parent (`TaskList.ParentSurvivesIffRejected`).
- **Facts about the code the model keeps as they are:**
  - An unparseable breakdown answer deletes the task (services/geminiService.ts:54-59,
    App.tsx:47). Only a rejected remote call keeps it.
  - An unparseable suggestions answer clears the current suggestions
    (services/geminiService.ts:33-38, App.tsx:60). Only a rejected remote call keeps them
    (`App.AppState.FinishSuggestions`).
  - `addTodo` itself does not reject blank text; only the form does (App.tsx:22-31,
    components/TodoInput.tsx:15). Suggestions and subtasks with blank text are added as
    they are.
  - App.tsx:11 calls `JSON.parse` on stored data with no guard.
  - Suggestions can only be accepted; there is no dismiss control.

## Model

| member | source | states |
|---|---|---|
| `Types.ParsePriority` | types.ts:2 | exactly the three strings "low", "medium", "high" name a priority |
| `Types.PriorityNameRoundTrip` | types.ts:2 | naming and parsing a priority are inverse to each other, in both directions |
| `Types.FromSuggestion` | types.ts:13-17 | the task made from a suggestion keeps its text, category and priority, and supplies only id, createdAt and completed = false |
| `Types.SuggestionRoundTrip` | types.ts:4-17 | a task is rebuilt from its suggestion-shaped part exactly when it is not completed |
| `Lists.Where` | App.tsx:39 | filtering keeps only elements that satisfy the predicate, keeps every element that does, and never grows the list |
| `Lists.WhereAppend` | App.tsx:68-72 | filtering distributes over concatenation, so relative order is kept |
| `Lists.WhereAll` | App.tsx:71 | a predicate that holds of every element leaves the list unchanged |
| `Lists.WhereSame` | App.tsx:109 | predicates that agree on every element give the same filtered list |
| `Lists.WhereSplit` | App.tsx:109-113 | a predicate and its negation split the list: the two filtered lengths add up to its length |
| `Lists.Reverse` | App.tsx:48 | position i of the reversal holds element n - 1 - i |
| `Lists.ReverseSnoc` | App.tsx:48 | prepending to a reversed prefix extends the reversal by one element |
| `Lists.WithoutIndex` | App.tsx:213 | filtering out position idx gives the elements before idx followed by those after it; an out-of-range idx changes nothing |
| `Gateway.Settle` | services/geminiService.ts:54-59 | only a rejected call becomes a thrown failure; an unparseable body becomes the empty list; a parsed body passes through |
| `Gateway.ParseFailureLooksEmpty` | services/geminiService.ts:33-38 | callers cannot tell an unparseable answer from an empty one |
| `TaskList.Add` | App.tsx:22-31 | one new task in front, which is not completed and carries the given id, text, timestamp, priority and category; the old tasks follow in order |
| `TaskList.AddKeepsUnique` | App.tsx:24-31 | a fresh id keeps task ids unique |
| `TaskList.Toggle` | App.tsx:34-36 | same length; each task changes only in `completed`, and that flag flips exactly on the tasks whose id matches |
| `TaskList.ToggleTwice` | App.tsx:34-36 | toggling the same id twice is the identity |
| `TaskList.ToggleAbsent` | App.tsx:35 | toggling an id that is not present changes nothing |
| `TaskList.ToggleKeepsUnique` | App.tsx:35 | toggling keeps the set of ids, and ids are unique after it exactly when they were before |
| `TaskList.Delete` | App.tsx:38-40 | a task survives exactly when it was present and has a different id |
| `TaskList.DeleteKeepsOrder` | App.tsx:39 | deleting distributes over concatenation, so the survivors keep their relative order |
| `TaskList.DeleteAbsent` | App.tsx:39 | deleting an id that is not present changes nothing |
| `TaskList.DeleteOne` | App.tsx:39 | with unique ids, deleting a present id shortens the list by exactly one |
| `TaskList.DeleteUndoesAdd` | App.tsx:22-40 | deleting the task just added under a fresh id gives the old list back |
| `TaskList.UniqueCons` | App.tsx:31 | a task in front of a list keeps ids unique exactly when its id is new to the list and the list's ids are unique |
| `TaskList.WhereKeepsUnique` | App.tsx:39 | filtering by any predicate keeps ids unique |
| `TaskList.DeleteKeepsUnique` | App.tsx:39 | deleting keeps ids unique |
| `TaskList.Filtered` | App.tsx:68-72 | 'active' gives exactly the tasks not completed, 'completed' exactly the completed ones, and the view never grows |
| `TaskList.FilteredAll` | App.tsx:71 | the 'all' view is the list unchanged |
| `TaskList.FilteredKeepsOrder` | App.tsx:68-72 | every view keeps list order |
| `TaskList.CountsPartition` | App.tsx:105-113 | Active plus Done equals Total, and each counter equals the length of the matching view |
| `TaskList.CompletionRate` | App.tsx:74-76 | 0 for an empty list, never above 100, 0 when nothing is done, 100 when everything is done |
| `TaskList.RoundedPercentBounds` | App.tsx:75 | rounding d/n per cent half up lies in 0..100 and is exactly 0 when d = 0 and exactly 100 when d = n |
| `TaskList.BreakdownLayout` | App.tsx:45-48 | after a breakdown with n subtasks, the n children come first, last subtask first; each is new, with the parent's priority and category "Subtask of: " + parent text; the old list minus the parent follows |
| `TaskList.BreakdownEmpty` | App.tsx:47-48 | an empty subtask list only removes the parent |
| `TaskList.ParentSurvivesIffRejected` | App.tsx:44-50 | given fresh child ids, a listed parent survives exactly when the remote call was rejected; an unparseable answer deletes it |
| `TaskList.UniqueAppend` | App.tsx:48 | two lists with unique, disjoint ids join into one with unique ids |
| `TaskList.BreakdownKeepsUnique` | App.tsx:47-48 | with fresh child ids, a breakdown keeps task ids unique |
| `TaskList.BreakdownExample` | App.tsx:45-48 | breaking down "Plan trip" (t1, high) into three subtasks drops t1 and prepends three high-priority "Subtask of: Plan trip" children in reverse order |
| `TaskList.AcceptIsPrepend` | App.tsx:212 | accepting a suggestion prepends exactly the task it becomes |
| `TodoInput.TrimStart` | components/TodoInput.tsx:15 | leaves a suffix that does not start with white space; everything removed is white space |
| `TodoInput.TrimEnd` | components/TodoInput.tsx:15 | leaves a prefix that does not end with white space; everything removed is white space |
| `TodoInput.Trim` | components/TodoInput.tsx:15 | the result is an infix of the input with only white space before and after it, and no white space at either of its own ends |
| `TodoInput.TrimUnique` | components/TodoInput.tsx:15 | any infix with only white space around it and none at its own ends is the trim, so the contract of `Trim` fixes its result |
| `TodoInput.TrimEmpty` | components/TodoInput.tsx:15 | the trimmed draft is empty exactly when the draft is all white space |
| `TodoInput.TrimFixed` | components/TodoInput.tsx:16 | a text with no white space at either end is its own trim |
| `TodoInput.TrimTwice` | components/TodoInput.tsx:16 | trimming is idempotent |
| `TodoInput.Form.constructor` | components/TodoInput.tsx:10-11 | the form starts with an empty draft and priority medium |
| `TodoInput.Form.SetText` | components/TodoInput.tsx:27 | typing replaces the draft and leaves the priority |
| `TodoInput.Form.SetPriority` | components/TodoInput.tsx:49 | choosing a priority changes only the priority |
| `TodoInput.Form.Submit` | components/TodoInput.tsx:13-18 | a call is made exactly when the button would be enabled (trimmed draft non-empty); a blank submit calls nothing and changes nothing; otherwise exactly one call with the trimmed draft and the selected priority, after which the draft is empty and the priority unchanged; a submitted text is non-empty, has no white space at either end and is its own trim |
| `App.AppState.constructor` | App.tsx:9-16 | stored list or empty; no suggestions, nothing in flight, view 'all' |
| `App.AppState.AddTodo` | App.tsx:22-32 | the new task is prepended, with category "General" when none is given; ids stay unique; no other field changes |
| `App.AppState.ToggleTodo` | App.tsx:34-36 | `todos` becomes its toggle; ids stay unique; no other field changes |
| `App.AppState.DeleteTodo` | App.tsx:38-40 | `todos` becomes its deletion; ids stay unique; no other field changes |
| `App.AppState.BeginBreakdown` | App.tsx:42-43 | while the request is pending, `breakingDownId` is the task's id and its breakdown control is disabled |
| `App.AppState.FinishBreakdown` | App.tsx:44-53 | the `forEach` of prepends gives the reversed children ahead of the list minus the parent; a thrown failure leaves `todos` unchanged and alerts; `breakingDownId` is cleared after both outcomes; ids stay unique |
| `App.AppState.BeginSuggestions` | App.tsx:56-57 | `isSuggesting` is true while pending; nothing else changes |
| `App.AppState.FinishSuggestions` | App.tsx:58-65 | applied to the raw remote answer through the gateway's handling (services/geminiService.ts:33-38): a parsed list replaces `suggestions` wholesale, an unparseable answer clears them, and only a rejected call leaves them unchanged; `isSuggesting` is false afterwards |
| `App.AppState.AcceptSuggestion` | App.tsx:211-213 | prepends the suggestion's task, and removes exactly position idx from `suggestions`: the others keep their order and the length drops by one |
| `App.AppState.SetFilter` | App.tsx:124 | only the view mode changes |
| `App.AppState.FilteredTodos` | App.tsx:68-72 | the shown tasks are exactly the tasks the mode accepts; 'all' shows the list unchanged |
| `App.AppState.SubmitInput` | App.tsx:117 | a form submit adds a task with the trimmed draft, the selected priority and category "General", and clears the draft; a blank submit adds nothing and keeps the draft; the priority stays selected |

## Left out

- Persistence in localStorage and its JSON coding (App.tsx:9-12, 18-20) are a browser API
  and a library codec. The constructor receives the list as already decoded. The source has
  no guard against malformed stored data: `JSON.parse` would throw at startup.
- `crypto.randomUUID()` and `Date.now()` are parameters. Each method that creates a task
  requires its ids to be new. This stands in for the assumption that random UUIDs do not
  collide. It also makes unique ids an object invariant (`Valid`).
- The constructor requires a stored list to have unique ids, because a list this
  application wrote always does.
- TaskList.CompletionRate: rounds the exact ratio half up, on integers. The source divides
  in floating point and then calls `Math.round`, so the two can differ when the exact
  percentage ends in .5. Only the bounds and the two end values are claimed.
- The remote calls themselves are inputs (`Gateway.Response`): network, the generative-language
  SDK, prompt texts, response schemas and `JSON.parse`. An answer is taken to be a JSON
  array, as the schema asks. A non-array value is not modelled: in a breakdown, the parent
  would be filtered out before `forEach` throws and triggers the alert.
- Priorities in remote answers are taken to be one of the three names. The source does not
  check them.
- Asynchronous interleaving, React batching and re-rendering are out. Each handler is a
  request step followed by a settle step, run one after the other. Overlapping breakdowns
  and stale suggestion indices are not modelled.
- App.AppState.AcceptSuggestion: requires `idx < |suggestions|`. The index comes from
  rendering the current suggestion list, and with no interleaving it is always in range.
- `handleBreakdown` does not check the breakdown-disabled condition itself; only the
  rendered button does. So `BeginBreakdown` does not require it. `BreakdownDisabled`
  states the condition from components/TodoItem.tsx:54.
- `alert` is the `alerted` result of `FinishBreakdown`. `console.error`, the JSX and the
  styling are presentation only.
- The rest of components/TodoItem.tsx is rendering and is not part of this model.

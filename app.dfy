/** The application state of App.tsx and its handlers. The asynchronous handlers are split
    into the step that runs before the gateway call is awaited and the step that runs when it
    settles; the gateway's answer and every generated identifier and timestamp are inputs. */
module App {
  import opened Types
  import opened Lists
  import opened Gateway
  import opened TaskList
  import TodoInput

  class AppState {
    var todos: seq<Todo>
    var suggestions: seq<Suggestion>
    var isSuggesting: bool
    var breakingDownId: Option<string>
    var filter: FilterMode

    /** The object invariant: task identifiers are unique. */
    predicate Valid()
      reads this
    {
      UniqueIds(todos)
    }

    /** Startup: the list read back from storage if there was one, otherwise empty; no
        suggestions, nothing in flight, the 'all' view. A stored list was written by this
        application and so has unique identifiers. */
    constructor (saved: Option<seq<Todo>>)
      requires saved.Some? ==> UniqueIds(saved.value)
      ensures Valid()
      ensures todos == (if saved.Some? then saved.value else [])
      ensures suggestions == [] && !isSuggesting && breakingDownId == None && filter == All
    {
      todos := if saved.Some? then saved.value else [];
      suggestions := [];
      isSuggesting := false;
      breakingDownId := None;
      filter := All;
    }

    /** `addTodo`: prepends a new task under a fresh identifier. */
    method AddTodo(id: string, createdAt: int, text: string, priority: Priority,
                   category: string := DefaultCategory)
      requires Valid() && id !in Ids(todos)
      modifies this
      ensures Valid()
      ensures todos == [Todo(id, text, false, createdAt, priority, category)] + old(todos)
      ensures suggestions == old(suggestions) && isSuggesting == old(isSuggesting)
      ensures breakingDownId == old(breakingDownId) && filter == old(filter)
    {
      AddKeepsUnique(todos, text, priority, category, id, createdAt);
      todos := Add(todos, text, priority, category, id, createdAt);
    }

    /** `toggleTodo`. */
    method ToggleTodo(id: string)
      requires Valid()
      modifies this
      ensures Valid()
      ensures todos == Toggle(old(todos), id)
      ensures suggestions == old(suggestions) && isSuggesting == old(isSuggesting)
      ensures breakingDownId == old(breakingDownId) && filter == old(filter)
    {
      ToggleKeepsUnique(todos, id);
      todos := Toggle(todos, id);
    }

    /** `deleteTodo`. */
    method DeleteTodo(id: string)
      requires Valid()
      modifies this
      ensures Valid()
      ensures todos == Delete(old(todos), id)
      ensures suggestions == old(suggestions) && isSuggesting == old(isSuggesting)
      ensures breakingDownId == old(breakingDownId) && filter == old(filter)
    {
      DeleteKeepsUnique(todos, id);
      todos := Delete(todos, id);
    }

    /** Whether the breakdown control of a task is disabled (components/TodoItem.tsx): while
        that task's breakdown is in flight, or once the task is completed. */
    predicate BreakdownDisabled(t: Todo)
      reads this
    {
      breakingDownId == Some(t.id) || t.completed
    }

    /** `handleBreakdown` up to the awaited call: marks the task as in flight. */
    method BeginBreakdown(todo: Todo)
      modifies this
      ensures breakingDownId == Some(todo.id) && BreakdownDisabled(todo)
      ensures todos == old(todos) && suggestions == old(suggestions)
      ensures isSuggesting == old(isSuggesting) && filter == old(filter)
    {
      breakingDownId := Some(todo.id);
    }

    /** `handleBreakdown` once the call settles. On a thrown failure the list is untouched and
        the user is alerted. Otherwise the task is filtered out and `addTodo`, called for each
        subtask in turn, prepends one child per subtask, each under its own fresh identifier and timestamp.
        The in-flight marker is cleared either way. */
    method FinishBreakdown(todo: Todo, reply: Reply<string>, ids: seq<string>, stamps: seq<int>)
      returns (alerted: bool)
      requires Valid()
      requires reply.Resolved? ==> |ids| == |reply.items| && |stamps| == |reply.items|
      requires reply.Resolved? ==> FreshIds(ids, todos)
      modifies this
      ensures Valid()
      ensures todos == AfterBreakdown(old(todos), todo, reply, ids, stamps)
      ensures alerted <==> reply.Threw?
      ensures breakingDownId == None
      ensures suggestions == old(suggestions) && isSuggesting == old(isSuggesting)
      ensures filter == old(filter)
    {
      BreakdownKeepsUnique(todos, todo, reply, ids, stamps);
      alerted := reply.Threw?;
      if reply.Resolved? {
        var subs := reply.items;
        ghost var cs := Children(todo, subs, ids, stamps);
        todos := Delete(todos, todo.id);
        ghost var rest := todos;
        var k := 0;
        while k < |subs|
          invariant 0 <= k <= |subs|
          invariant todos == Reverse(cs[..k]) + rest
          invariant suggestions == old(suggestions) && isSuggesting == old(isSuggesting)
          invariant filter == old(filter)
        {
          PrependChild(todo, subs, ids, stamps, k, rest);
          todos := Add(todos, subs[k], todo.priority, SubtaskCategory(todo), ids[k], stamps[k]);
          k := k + 1;
        }
        assert cs[..k] == cs;
      }
      breakingDownId := None;
    }

    /** `handleGetSuggestions` up to the awaited call. */
    method BeginSuggestions()
      modifies this
      ensures isSuggesting
      ensures todos == old(todos) && suggestions == old(suggestions)
      ensures breakingDownId == old(breakingDownId) && filter == old(filter)
    {
      isSuggesting := true;
    }

    /** `handleGetSuggestions` once the call settles. The gateway settles the answer first: a
        parsed list replaces the suggestions wholesale, an unparseable answer arrives as the
        empty list and so clears them, and only a rejected call leaves them as they were;
        either way the request is over. */
    method FinishSuggestions(response: Response<Suggestion>)
      modifies this
      ensures response.Rejected? ==> suggestions == old(suggestions)
      ensures response == Answered(None) ==> suggestions == []
      ensures response.Answered? && response.parsed.Some? ==> suggestions == response.parsed.value
      ensures !isSuggesting
      ensures todos == old(todos) && breakingDownId == old(breakingDownId) && filter == old(filter)
    {
      var reply := Settle(response);
      if reply.Resolved? {
        suggestions := reply.items;
      }
      isSuggesting := false;
    }

    /** The click handler of the suggestion at position idx: adds the task it becomes, then
        drops exactly that position from the suggestions. */
    method AcceptSuggestion(idx: nat, id: string, createdAt: int)
      requires Valid() && id !in Ids(todos)
      requires idx < |suggestions|
      modifies this
      ensures Valid()
      ensures todos == [FromSuggestion(old(suggestions)[idx], id, createdAt)] + old(todos)
      ensures suggestions == old(suggestions)[..idx] + old(suggestions)[idx + 1..]
      ensures |suggestions| == |old(suggestions)| - 1
      ensures isSuggesting == old(isSuggesting) && breakingDownId == old(breakingDownId)
      ensures filter == old(filter)
    {
      var s := suggestions[idx];
      AddTodo(id, createdAt, s.text, s.priority, s.category);
      suggestions := WithoutIndex(suggestions, idx);
    }

    /** Choosing a tab of the view. */
    method SetFilter(mode: FilterMode)
      modifies this
      ensures filter == mode
      ensures todos == old(todos) && suggestions == old(suggestions)
      ensures isSuggesting == old(isSuggesting) && breakingDownId == old(breakingDownId)
    {
      filter := mode;
    }

    /** `filteredTodos`: the tasks the selected tab shows. */
    function FilteredTodos(): (r: seq<Todo>)
      reads this
      ensures filter == All ==> r == todos
      ensures forall t :: t in r <==> t in todos && Shown(filter, t)
    {
      FilteredAll(todos);
      Filtered(todos, filter)
    }

    /** The form wired to `addTodo` as its `onAdd`: a submit adds its request as a task of
        the default category and clears the draft; a blank submit adds nothing and keeps it. */
    method SubmitInput(form: TodoInput.Form, id: string, createdAt: int)
      requires Valid() && id !in Ids(todos)
      modifies this, form
      ensures Valid()
      ensures old(form.SubmitEnabled()) ==>
        todos == [Todo(id, TodoInput.Trim(old(form.text)), false, createdAt, old(form.priority),
                       "General")] + old(todos)
      ensures !old(form.SubmitEnabled()) ==> todos == old(todos)
      ensures old(form.SubmitEnabled()) ==> form.text == ""
      ensures !old(form.SubmitEnabled()) ==> form.text == old(form.text)
      ensures form.priority == old(form.priority)
      ensures suggestions == old(suggestions) && isSuggesting == old(isSuggesting)
      ensures breakingDownId == old(breakingDownId) && filter == old(filter)
    {
      var call := form.Submit();
      if call.Some? {
        AddTodo(id, createdAt, call.value.text, call.value.priority);
      }
    }
  }
}

/** The records of the task list (types.ts). */
module Types {

  /** An optional value; stands for the source's `T | null`. */
  datatype Option<T> = None | Some(value: T)

  /** The closed string union 'low' | 'medium' | 'high'. */
  datatype Priority = Low | Medium | High

  /** The string each priority is written as, in storage and in gateway replies. */
  function PriorityName(p: Priority): (s: string)
  {
    match p
    case Low => "low"
    case Medium => "medium"
    case High => "high"
  }

  /** Reads a priority back from its string; any other string is not a priority. */
  function ParsePriority(s: string): (r: Option<Priority>)
    ensures r.Some? <==> s == "low" || s == "medium" || s == "high"
  {
    if s == "low" then Some(Low)
    else if s == "medium" then Some(Medium)
    else if s == "high" then Some(High)
    else None
  }

  /** The three names are the whole union: parsing inverts naming, and naming inverts parsing. */
  lemma PriorityNameRoundTrip(p: Priority, s: string)
    ensures ParsePriority(PriorityName(p)) == Some(p)
    ensures ParsePriority(s) == Some(p) <==> PriorityName(p) == s
  {
  }

  /** A task. */
  datatype Todo = Todo(
    id: string,
    text: string,
    completed: bool,
    createdAt: int,      // epoch milliseconds
    priority: Priority,
    category: string)

  /** A proposed task, not yet in the list. */
  datatype Suggestion = Suggestion(text: string, category: string, priority: Priority)

  /** The suggestion-shaped part of a task: the three fields the two records share. */
  function AsSuggestion(t: Todo): (s: Suggestion)
  {
    Suggestion(t.text, t.category, t.priority)
  }

  /** The task an accepted suggestion becomes; only id, completed and createdAt are supplied. */
  function FromSuggestion(s: Suggestion, id: string, createdAt: int): (t: Todo)
    ensures AsSuggestion(t) == s
    ensures t.id == id && t.createdAt == createdAt && !t.completed
  {
    Todo(id, s.text, false, createdAt, s.priority, s.category)
  }

  /** A task is recovered from its suggestion-shaped part exactly when it is not completed. */
  lemma SuggestionRoundTrip(t: Todo)
    ensures FromSuggestion(AsSuggestion(t), t.id, t.createdAt) == t <==> !t.completed
  {
  }
}

/** The two calls into the generative-language service (services/geminiService.ts), reduced to
    what the application sees of them: the remote call itself is an oracle, and only the
    handling of its answer is modelled. */
module Gateway {
  import opened Types

  /** What the remote call produced: it was rejected (transport or service error), or it
      answered with a body that `JSON.parse` either read as a list (Some) or failed on (None).
      An absent or empty body is parsed as '[]', so it arrives here as Some([]). */
  datatype Response<T> = Rejected | Answered(parsed: Option<seq<T>>)

  /** What a gateway function hands back to the application: a list, or a thrown failure. */
  datatype Reply<T> = Threw | Resolved(items: seq<T>)

  /** The gateway's own error handling: only a rejected call becomes a thrown failure; a body
      that does not parse is swallowed and reported as the empty list. */
  function Settle<T>(resp: Response<T>): (r: Reply<T>)
    ensures r.Threw? <==> resp.Rejected?
    ensures resp.Answered? && resp.parsed.None? ==> r == Resolved([])
    ensures resp.Answered? && resp.parsed.Some? ==> r == Resolved(resp.parsed.value)
  {
    match resp
    case Rejected => Threw
    case Answered(parsed) =>
      match parsed
      case None => Resolved([])
      case Some(items) => Resolved(items)
  }

  /** A caller cannot tell an unparseable answer from an answer that really was empty. */
  lemma ParseFailureLooksEmpty<T>()
    ensures Settle<T>(Answered(None)) == Settle<T>(Answered(Some([])))
  {
  }
}

/** The new-task form (components/TodoInput.tsx): a draft text, a selected priority, and a
    submit that hands the trimmed text to the task list. */
module TodoInput {
  import opened Types

  /** The characters `String.prototype.trim` strips: ECMAScript WhiteSpace (tab, vertical tab,
      form feed, space, no-break space, byte order mark and the space separators) and
      LineTerminator (line feed, carriage return, line and paragraph separators). */
  predicate IsSpace(c: char)
  {
    || c == '\t' || c == '\n' || c == '\U{000B}' || c == '\U{000C}' || c == '\r' || c == ' '
    || c == '\U{00A0}' || c == '\U{1680}' || ('\U{2000}' <= c <= '\U{200A}')
    || c == '\U{2028}' || c == '\U{2029}' || c == '\U{202F}' || c == '\U{205F}'
    || c == '\U{3000}' || c == '\U{FEFF}'
  }

  /** Strips leading white space: what remains is a suffix that starts with a non-space. */
  function TrimStart(s: string): (r: string)
    ensures |r| <= |s| && r == s[|s| - |r|..]
    ensures forall i :: 0 <= i < |s| - |r| ==> IsSpace(s[i])
    ensures r == [] || !IsSpace(r[0])
  {
    if s != [] && IsSpace(s[0]) then TrimStart(s[1..]) else s
  }

  /** Strips trailing white space: what remains is a prefix that ends with a non-space. */
  function TrimEnd(s: string): (r: string)
    ensures |r| <= |s| && r == s[..|r|]
    ensures forall i :: |r| <= i < |s| ==> IsSpace(s[i])
    ensures r == [] || !IsSpace(r[|r| - 1])
  {
    if s != [] && IsSpace(s[|s| - 1]) then TrimEnd(s[..|s| - 1]) else s
  }

  /** r occurs in s at position k, with only white space before it and after it. */
  predicate SpacedAt(s: string, r: string, k: int)
  {
    && 0 <= k && k + |r| <= |s| && r == s[k..k + |r|]
    && (forall i :: 0 <= i < k ==> IsSpace(s[i]))
    && (forall i :: k + |r| <= i < |s| ==> IsSpace(s[i]))
  }

  /** `s.trim()`: the part of s between its leading and trailing white space. */
  function Trim(s: string): (r: string)
    ensures |r| <= |s|
    ensures r == [] || (!IsSpace(r[0]) && !IsSpace(r[|r| - 1]))
    ensures exists k :: SpacedAt(s, r, k)
  {
    var a := TrimStart(s);
    var k := |s| - |a|;
    var r := TrimEnd(a);
    assert a == s[k..] && r == a[..|r|];
    assert r == s[k..k + |r|];
    assert forall i :: k + |r| <= i < |s| ==> s[i] == a[i - k];
    assert SpacedAt(s, r, k);
    r
  }

  /** The contract of Trim determines its result: any infix of s with only white space around
      it and none at either of its own ends is the trim of s. */
  lemma TrimUnique(s: string, t: string, j: int)
    requires SpacedAt(s, t, j)
    requires t == [] || (!IsSpace(t[0]) && !IsSpace(t[|t| - 1]))
    ensures t == Trim(s)
  {
    var r := Trim(s);
    var k :| SpacedAt(s, r, k);
    if t != [] {
      assert s[j] == t[0] && s[j + |t| - 1] == t[|t| - 1];
      if r != [] {
        assert s[k] == r[0] && s[k + |r| - 1] == r[|r| - 1];
        assert j == k;
        assert |t| == |r|;
      }
    }
  }

  /** The trimmed text is empty exactly when the text is all white space. */
  lemma TrimEmpty(s: string)
    ensures Trim(s) == [] <==> forall i :: 0 <= i < |s| ==> IsSpace(s[i])
  {
    var a := TrimStart(s);
    if forall i :: 0 <= i < |s| ==> IsSpace(s[i]) {
      assert a == [];
    }
  }

  /** A text that neither starts nor ends with white space is its own trim; so trimming twice
      is trimming once. */
  lemma TrimFixed(s: string)
    requires s == [] || (!IsSpace(s[0]) && !IsSpace(s[|s| - 1]))
    ensures Trim(s) == s
    ensures Trim(Trim(s)) == Trim(s)
  {
  }

  /** Trimming is idempotent. */
  lemma TrimTwice(s: string)
    ensures Trim(Trim(s)) == Trim(s)
  {
    TrimFixed(Trim(s));
  }

  /** The call `onAdd(text, priority)` that a submit makes. */
  datatype AddRequest = AddRequest(text: string, priority: Priority)

  /** The form's two state fields. */
  class Form {
    var text: string
    var priority: Priority

    /** The form starts with an empty draft and priority medium. */
    constructor ()
      ensures text == "" && priority == Medium
    {
      text := "";
      priority := Medium;
    }

    /** The submit button is enabled exactly when the trimmed draft is non-empty. */
    predicate SubmitEnabled()
      reads this
    {
      Trim(text) != ""
    }

    /** Typing into the field replaces the draft and nothing else. */
    method SetText(t: string)
      modifies this
      ensures text == t && priority == old(priority)
    {
      text := t;
    }

    /** Choosing a priority changes only the priority, never the draft. */
    method SetPriority(p: Priority)
      modifies this
      ensures priority == p && text == old(text)
    {
      priority := p;
    }

    /** `handleSubmit`: a blank draft calls nothing and changes nothing; otherwise `onAdd` is
        called once with the trimmed draft and the selected priority, and the draft is cleared
        while the priority stays selected. The guard is the same as the button's, so a
        submitted text is never blank, has no white space at either end and is its own trim. */
    method Submit() returns (call: Option<AddRequest>)
      modifies this
      ensures call.Some? <==> old(SubmitEnabled())
      ensures call.None? ==> text == old(text) && priority == old(priority)
      ensures call.Some? ==> call.value == AddRequest(Trim(old(text)), old(priority))
      ensures call.Some? ==> text == "" && priority == old(priority)
      ensures call.Some? ==> var t := call.value.text;
        t != [] && !IsSpace(t[0]) && !IsSpace(t[|t| - 1]) && Trim(t) == t
    {
      if Trim(text) == "" {
        return None;
      }
      TrimTwice(text);
      call := Some(AddRequest(Trim(text), priority));
      text := "";
    }
  }
}

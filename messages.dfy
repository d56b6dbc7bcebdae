/** `concatenate_messages`: the text of the agent's answer, made of the string
    contents of its messages joined by blank lines. */
module Messages {
  import opened Text

  /** The `content` attribute of a message: a string, or anything else (no such
      attribute, a list of parts, ...), which the concatenation skips. */
  datatype Content = Str(text: string) | NotText

  /** The agent's result: a falsy value (None or an empty dict), or a dict whose
      "messages" entry is a list or is missing or falsy (`None`). */
  datatype AgentResult = Falsy | Result(messages: Option<seq<Content>>)

  /** `agent_result.get("messages") or []`. */
  function MessagesOf(r: AgentResult): seq<Content> {
    match r
    case Falsy => []
    case Result(None) => []
    case Result(Some(msgs)) => msgs
  }

  /** The string contents, in message order. */
  function TextParts(msgs: seq<Content>): (parts: seq<string>)
    ensures |parts| <= |msgs|
    decreases |msgs|
  {
    if msgs == [] then []
    else
      var init := TextParts(msgs[..|msgs| - 1]);
      match msgs[|msgs| - 1]
      case Str(t) => init + [t]
      case NotText => init
  }

  /** `"\n\n".join(parts).strip()`, or "" for a falsy result. The text never
      begins or ends with whitespace. */
  function Concatenated(r: AgentResult): (s: string)
    ensures r.Falsy? ==> s == ""
    ensures s != "" ==> !IsSpace(s[0]) && !IsSpace(s[|s| - 1])
  {
    if r.Falsy? then "" else Strip(Join(TextParts(MessagesOf(r)), "\n\n"))
  }

  /** Every message is judged on its own. */
  lemma {:induction false} TextPartsAppend(a: seq<Content>, b: seq<Content>)
    ensures TextParts(a + b) == TextParts(a) + TextParts(b)
    decreases |b|
  {
    if b == [] {
      assert a + b == a;
    } else {
      var b' := b[..|b| - 1];
      assert (a + b)[..|a + b| - 1] == a + b';
      TextPartsAppend(a, b');
    }
  }

  /** A string content contributes itself; anything else contributes nothing. */
  lemma TextPartsOne(c: Content)
    ensures TextParts([c]) == if c.Str? then [c.text] else []
  {
    assert [c][..0] == [];
  }

  /** Messages whose content is not a string leave the answer as it was. */
  lemma NonTextIgnored(msgs: seq<Content>)
    ensures Concatenated(Result(Some(msgs + [NotText]))) == Concatenated(Result(Some(msgs)))
  {
    TextPartsAppend(msgs, [NotText]);
    TextPartsOne(NotText);
    assert TextParts(msgs) + [] == TextParts(msgs);
  }

  /** The join of parts begins with the first character of the first part. */
  lemma JoinFirstChar(parts: seq<string>, sep: string)
    requires parts != [] && parts[0] != ""
    ensures Join(parts, sep) != "" && Join(parts, sep)[0] == parts[0][0]
  {
    if |parts| > 1 {
      assert Join(parts, sep) == parts[0] + sep + Join(parts[1..], sep);
    }
  }

  /** When the first part does not begin with whitespace and the last does not end
      with it, the answer is exactly the parts joined by blank lines. */
  lemma TrimmedPartsJoined(msgs: seq<Content>)
    requires var parts := TextParts(msgs);
      && parts != [] && parts[0] != "" && parts[|parts| - 1] != ""
      && !IsSpace(parts[0][0]) && !IsSpace(Last(parts[|parts| - 1]))
    ensures Concatenated(Result(Some(msgs))) == Join(TextParts(msgs), "\n\n")
  {
    var parts := TextParts(msgs);
    JoinFirstChar(parts, "\n\n");
    JoinLastChar(parts, "\n\n");
    StripByUnchanged(Join(parts, "\n\n"), Space);
  }

  /** The concatenation as the program runs it: a loop that appends every string
      content to a list. */
  method ConcatenateMessages(r: AgentResult) returns (s: string)
    ensures s == Concatenated(r)
  {
    if r.Falsy? {
      return "";
    }
    var msgs := MessagesOf(r);
    var parts: seq<string> := [];
    var i := 0;
    while i < |msgs|
      invariant 0 <= i <= |msgs|
      invariant parts == TextParts(msgs[..i])
    {
      assert msgs[..i + 1][..i] == msgs[..i];
      if msgs[i].Str? {
        parts := parts + [msgs[i].text];
      }
      i := i + 1;
    }
    assert msgs[..i] == msgs;
    s := Strip(Join(parts, "\n\n"));
  }
}

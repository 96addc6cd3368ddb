/**
 * The chat route of app/api/chat/route.ts: the last message is the question,
 * every earlier message becomes a `role: content` line of the conversation,
 * context is retrieved only when a repository name is given, and the three
 * strings fill the fixed prompt template that is streamed to the model.
 *
 * Constructing the model and starting the stream is the parameter
 * `startStream`, which yields the message of the error it throws, if any;
 * what the model then streams is not part of this model.
 */
module ChatRoute {
  import opened Wrappers
  import opened Text
  import Retriever

  /** A chat message: who spoke and what was said. */
  datatype Message = Message(role: string, content: string)

  /** `formatMessage`: the role, a colon and a space, then the content. */
  function FormatMessage(m: Message): (line: string)
    ensures |line| == |m.role| + 2 + |m.content|
    ensures HasPrefix(line, m.role) && line[|m.role|..|m.role| + 2] == ": " && line[|m.role| + 2..] == m.content
  {
    m.role + ": " + m.content
  }

  /** Reading a line back: the role is everything before the first `": "`. */
  function ParseLine(line: string): Option<Message>
  {
    match IndexOf(line, ": ")
    case None => None
    case Some(i) => Some(Message(line[..i], line[i + 2..]))
  }

  /** A formatted line names its speaker unambiguously whenever the role has no colon (as every role of the chat protocol). */
  lemma FormatParseRoundTrip(m: Message)
    requires ':' !in m.role
    ensures ParseLine(FormatMessage(m)) == Some(m)
  {
    var line := FormatMessage(m);
    var r := |m.role|;
    assert OccursAt(line, ": ", r);
    forall j | 0 <= j < r ensures !OccursAt(line, ": ", j) {
      assert line[j] == m.role[j];
      if j + 2 <= |line| {
        assert line[j..j + 2][0] == line[j];
      }
    }
    assert line[..r] == m.role;
  }

  /** `messages.map(formatMessage)` */
  function FormatAll(messages: seq<Message>): (lines: seq<string>)
    ensures |lines| == |messages|
    ensures forall k :: 0 <= k < |lines| ==> lines[k] == FormatMessage(messages[k])
  {
    if messages == [] then [] else [FormatMessage(messages[0])] + FormatAll(messages[1..])
  }

  /** `messages.slice(0, -1)`: everything but the last message (nothing for an empty list). */
  function Earlier(messages: seq<Message>): seq<Message>
  {
    if messages == [] then [] else messages[..|messages| - 1]
  }

  /** `formattedPreviousMessages`: the earlier messages, one formatted line each, joined by newlines. */
  function ChatHistory(messages: seq<Message>): string
  {
    Join(FormatAll(Earlier(messages)), "\n")
  }

  /** A piece of a prompt template: literal text, or a `{name}` placeholder. */
  datatype Piece = Lit(text: string) | Slot(name: string)

  const PREAMBLE: string :=
    "You are an expert software engineer explaining a GitHub repository.\n" +
    "Answer the user's question based only on the following context. " +
    "If the answer is not in the context, say you don't know.\n\nContext:\n"
  const CONVERSATION_HEADER: string := "\n\nCurrent conversation:\n"
  const QUESTION_HEADER: string := "\n\nUser: "
  const ANSWER_CUE: string := "\nAnswer:"

  /** `TEMPLATE`, split into its literal text and its three placeholders. */
  const TEMPLATE: seq<Piece> := [
    Lit(PREAMBLE), Slot("context"),
    Lit(CONVERSATION_HEADER), Slot("chat_history"),
    Lit(QUESTION_HEADER), Slot("question"),
    Lit(ANSWER_CUE)]

  /** How often placeholder `name` occurs in a template. */
  function SlotCount(t: seq<Piece>, name: string): nat
  {
    if t == [] then 0 else (if t[0] == Slot(name) then 1 else 0) + SlotCount(t[1..], name)
  }

  /**
   * Filling a template: literal text as is, each placeholder by its value,
   * with no second pass over the inserted values; a placeholder without a
   * value is an error (`None`).
   */
  function Render(t: seq<Piece>, values: map<string, string>): Option<string>
  {
    if t == [] then Some("")
    else
      match Render(t[1..], values)
      case None => None
      case Some(rest) =>
        match t[0]
        case Lit(s) => Some(s + rest)
        case Slot(n) => if n in values then Some(values[n] + rest) else None
  }

  /** Filling fails exactly when some placeholder of the template has no value. */
  lemma {:induction false} RenderFailsExactly(t: seq<Piece>, values: map<string, string>)
    ensures Render(t, values).None? <==> exists k :: 0 <= k < |t| && t[k].Slot? && t[k].name !in values
  {
    if t != [] {
      RenderFailsExactly(t[1..], values);
      assert forall k :: 1 <= k < |t| ==> t[k] == t[1..][k - 1];
    }
  }

  /** The values the chain hands to the template. */
  function TemplateValues(context: string, history: string, question: string): map<string, string>
  {
    map["context" := context, "chat_history" := history, "question" := question]
  }

  /** A template with a first piece: that piece, then the rest. */
  lemma Cons(p: Piece, t: seq<Piece>)
    ensures ([p] + t)[0] == p && ([p] + t)[1..] == t
  {
  }

  /** Counting in a template with a first piece: that piece, then the rest. */
  lemma SlotCountCons(p: Piece, t: seq<Piece>, name: string)
    ensures SlotCount([p] + t, name) == (if p == Slot(name) then 1 else 0) + SlotCount(t, name)
  {
    Cons(p, t);
  }

  /** In three literals around three placeholders, `name` occurs once for each placeholder it names. */
  lemma SlotCountThree(l0: string, n1: string, l2: string, n3: string, l4: string, n5: string, l6: string,
                       name: string)
    ensures SlotCount([Lit(l0), Slot(n1), Lit(l2), Slot(n3), Lit(l4), Slot(n5), Lit(l6)], name) ==
      (if n1 == name then 1 else 0) + (if n3 == name then 1 else 0) + (if n5 == name then 1 else 0)
  {
    var c1 := if n1 == name then 1 else 0;
    var c3 := if n3 == name then 1 else 0;
    var c5 := if n5 == name then 1 else 0;
    var t6 := [Lit(l6)] + [];
    SlotCountCons(Lit(l6), [], name);
    assert SlotCount(t6, name) == 0;
    var t5 := [Slot(n5)] + t6;
    SlotCountCons(Slot(n5), t6, name);
    assert SlotCount(t5, name) == c5;
    var t4 := [Lit(l4)] + t5;
    SlotCountCons(Lit(l4), t5, name);
    assert SlotCount(t4, name) == c5;
    var t3 := [Slot(n3)] + t4;
    SlotCountCons(Slot(n3), t4, name);
    assert SlotCount(t3, name) == c3 + c5;
    var t2 := [Lit(l2)] + t3;
    SlotCountCons(Lit(l2), t3, name);
    assert SlotCount(t2, name) == c3 + c5;
    var t1 := [Slot(n1)] + t2;
    SlotCountCons(Slot(n1), t2, name);
    assert SlotCount(t1, name) == c1 + c3 + c5;
    SlotCountCons(Lit(l0), t1, name);
    assert [Lit(l0)] + t1 == [Lit(l0), Slot(n1), Lit(l2), Slot(n3), Lit(l4), Slot(n5), Lit(l6)];
  }

  /** Each of the three placeholders occurs exactly once, so each value is inserted exactly once. */
  lemma TemplateSlotsOnce()
    ensures SlotCount(TEMPLATE, "context") == 1
    ensures SlotCount(TEMPLATE, "chat_history") == 1
    ensures SlotCount(TEMPLATE, "question") == 1
  {
    assert "context" != "question" && "context" != "chat_history" && "chat_history" != "question";
    SlotCountThree(PREAMBLE, "context", CONVERSATION_HEADER, "chat_history", QUESTION_HEADER, "question", ANSWER_CUE, "context");
    SlotCountThree(PREAMBLE, "context", CONVERSATION_HEADER, "chat_history", QUESTION_HEADER, "question", ANSWER_CUE, "chat_history");
    SlotCountThree(PREAMBLE, "context", CONVERSATION_HEADER, "chat_history", QUESTION_HEADER, "question", ANSWER_CUE, "question");
  }

  /** Filling a literal piece puts its text in front of the rest. */
  lemma RenderLit(text: string, t: seq<Piece>, values: map<string, string>)
    requires Render(t, values).Some?
    ensures Render([Lit(text)] + t, values) == Some(text + Render(t, values).value)
  {
    Cons(Lit(text), t);
  }

  /** Filling a placeholder that has a value puts the value in front of the rest. */
  lemma RenderSlot(name: string, t: seq<Piece>, values: map<string, string>)
    requires name in values && Render(t, values).Some?
    ensures Render([Slot(name)] + t, values) == Some(values[name] + Render(t, values).value)
  {
    Cons(Slot(name), t);
  }

  /** A literal followed by a placeholder that has a value: the text, then the value, then the rest. */
  lemma RenderPair(text: string, name: string, t: seq<Piece>, values: map<string, string>)
    requires name in values && Render(t, values).Some?
    ensures Render([Lit(text), Slot(name)] + t, values) == Some(text + values[name] + Render(t, values).value)
  {
    var t1 := [Slot(name)] + t;
    RenderSlot(name, t, values);
    RenderLit(text, t1, values);
    PairCons(Lit(text), Slot(name), t);
    ConcatAssoc(text, values[name], Render(t, values).value);
  }

  /** Two pieces in front of a template, one at a time. */
  lemma PairCons(p: Piece, q: Piece, t: seq<Piece>)
    ensures [p, q] + t == [p] + ([q] + t)
  {
  }

  /** A template of three literals around three placeholders, filled from values for all three. */
  lemma RenderThreeSlots(l0: string, n1: string, l2: string, n3: string, l4: string, n5: string, l6: string,
                         values: map<string, string>)
    requires n1 in values && n3 in values && n5 in values
    ensures Render([Lit(l0), Slot(n1), Lit(l2), Slot(n3), Lit(l4), Slot(n5), Lit(l6)], values) ==
      Some(l0 + values[n1] + l2 + values[n3] + l4 + values[n5] + l6)
  {
    var v1, v3, v5 := values[n1], values[n3], values[n5];
    var t6 := [Lit(l6)];
    RenderLit(l6, [], values);
    assert [Lit(l6)] + [] == t6 && l6 + "" == l6;
    var t4 := [Lit(l4), Slot(n5)] + t6;
    RenderPair(l4, n5, t6, values);
    var t2 := [Lit(l2), Slot(n3)] + t4;
    RenderPair(l2, n3, t4, values);
    var t0 := [Lit(l0), Slot(n1)] + t2;
    RenderPair(l0, n1, t2, values);
    assert t0 == [Lit(l0), Slot(n1), Lit(l2), Slot(n3), Lit(l4), Slot(n5), Lit(l6)];
    var a := l0 + v1;
    Concat4(l2 + v3, l4, v5, l6);
    ConcatAssoc(a, l2 + v3 + l4 + v5, l6);
    ConcatAssoc(a, l2 + v3 + l4, v5);
    ConcatAssoc(a, l2 + v3, l4);
    ConcatAssoc(a, l2, v3);
  }

  /** The template filled from any values that give the three placeholders. */
  lemma RenderFilled(values: map<string, string>)
    requires "context" in values && "chat_history" in values && "question" in values
    ensures Render(TEMPLATE, values) ==
      Some(PREAMBLE + values["context"] + CONVERSATION_HEADER + values["chat_history"] +
           QUESTION_HEADER + values["question"] + ANSWER_CUE)
  {
    RenderThreeSlots(PREAMBLE, "context", CONVERSATION_HEADER, "chat_history", QUESTION_HEADER, "question", ANSWER_CUE, values);
  }

  /**
   * Filling the template gives the instructions, the context, the
   * conversation, the question after `User: `, and `Answer:` at the end, in
   * that order.
   */
  lemma RenderTemplate(context: string, history: string, question: string)
    ensures Render(TEMPLATE, TemplateValues(context, history, question)) ==
      Some(PREAMBLE + context + CONVERSATION_HEADER + history + QUESTION_HEADER + question + ANSWER_CUE)
  {
    var v := TemplateValues(context, history, question);
    assert "chat_history" != "question";
    assert "context" != "question" && "context" != "chat_history";
    assert v["context"] == context && v["chat_history"] == history && v["question"] == question;
    RenderFilled(v);
  }

  /** `if (repoName)`: a present, non-empty name. */
  predicate Truthy(repoName: Option<string>)
  {
    repoName.Some? && repoName.value != ""
  }

  /** The context of a turn: retrieval for a truthy repository name, `""` otherwise. */
  function TurnContext(question: string, repoName: Option<string>, services: Retriever.Services): (context: string)
    ensures !Truthy(repoName) ==> context == ""
  {
    if Truthy(repoName) then Retriever.RetrieveContext(question, repoName.value, services) else ""
  }

  /** The response: a stream over the rendered prompt, or a 500 with the error message. */
  datatype ChatResponse = Streaming(prompt: string) | Failed(status: nat, error: string)

  /** What reading `.content` of the missing last message of an empty list throws. */
  const NO_CURRENT_MESSAGE: string := "Cannot read properties of undefined (reading 'content')"

  /** What the template throws for a placeholder without a value. */
  const MISSING_VALUE: string := "Missing value for input variable"

  /**
   * `POST`: an empty conversation fails with a 500; otherwise the prompt is
   * the template filled with the retrieved (or empty) context, the history and
   * the last message's content, and the response streams it unless starting
   * the stream throws.
   */
  function Post(messages: seq<Message>, repoName: Option<string>, services: Retriever.Services,
                startStream: string -> Option<string>): (r: ChatResponse)
    ensures messages == [] ==> r == Failed(500, NO_CURRENT_MESSAGE)
    ensures r.Failed? ==> r.status == 500
    ensures r.Streaming? ==> messages != [] && startStream(r.prompt).None?
  {
    if messages == [] then Failed(500, NO_CURRENT_MESSAGE)
    else
      var question := messages[|messages| - 1].content;
      var history := ChatHistory(messages);
      var context := TurnContext(question, repoName, services);
      match Render(TEMPLATE, TemplateValues(context, history, question))
      case None => Failed(500, MISSING_VALUE)
      case Some(prompt) =>
        match startStream(prompt)
        case Some(error) => Failed(500, error)
        case None => Streaming(prompt)
  }

  /**
   * The history of a conversation of at most one message is empty; otherwise
   * it has one line per earlier message and its length is theirs plus one
   * newline between neighbours.
   */
  lemma HistoryLength(messages: seq<Message>)
    ensures |messages| <= 1 ==> ChatHistory(messages) == ""
    ensures |messages| > 1 ==>
              var lines := FormatAll(messages[..|messages| - 1]);
              |lines| == |messages| - 1 &&
              |ChatHistory(messages)| == TotalLength(lines) + (|lines| - 1)
  {
    if |messages| == 1 {
      assert Earlier(messages) == [];
    }
    if |messages| > 1 {
      var lines := FormatAll(messages[..|messages| - 1]);
      assert ChatHistory(messages) == Join(lines, "\n");
      JoinLength(lines, "\n");
    }
  }

  /**
   * The history holds exactly the earlier messages, in order: line k is
   * `role: content` of message k, it sits at its offset in the history, and a
   * single newline follows every line but the last.
   */
  lemma HistoryLines(messages: seq<Message>)
    ensures |messages| > 1 ==>
              var lines := FormatAll(messages[..|messages| - 1]);
              forall k :: 0 <= k < |lines| ==>
                lines[k] == messages[k].role + ": " + messages[k].content &&
                OccursAt(ChatHistory(messages), lines[k], PartOffset(lines, "\n", k)) &&
                (k + 1 < |lines| ==> OccursAt(ChatHistory(messages), "\n", PartOffset(lines, "\n", k) + |lines[k]|))
  {
    if |messages| > 1 {
      var earlier := messages[..|messages| - 1];
      var lines := FormatAll(earlier);
      assert ChatHistory(messages) == Join(lines, "\n");
      JoinLaysOut(lines, "\n");
      assert forall k :: 0 <= k < |lines| ==> earlier[k] == messages[k];
    }
  }

  /**
   * The prompt of a non-empty conversation: the instructions, the context
   * (empty unless a repository name is given, the retrieved context
   * otherwise), the conversation header and history, then the LAST message's
   * content after `User: `, then `Answer:`; a stream starts on exactly that
   * prompt unless starting it throws, whose message then comes back with a 500.
   */
  lemma PromptOfTurn(messages: seq<Message>, repoName: Option<string>, services: Retriever.Services,
                     startStream: string -> Option<string>)
    requires messages != []
    ensures var question := messages[|messages| - 1].content;
            var context := if Truthy(repoName) then Retriever.RetrieveContext(question, repoName.value, services) else "";
            var prompt := PREAMBLE + context + CONVERSATION_HEADER + ChatHistory(messages) + QUESTION_HEADER + question + ANSWER_CUE;
            Post(messages, repoName, services, startStream) ==
              (if startStream(prompt).Some? then Failed(500, startStream(prompt).value) else Streaming(prompt))
  {
    var question := messages[|messages| - 1].content;
    RenderTemplate(TurnContext(question, repoName, services), ChatHistory(messages), question);
  }
}

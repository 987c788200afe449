/**
 * The conversation bookkeeping of the Groq text chatbot (groq_chatbot.py):
 * `chat_with_groq` appends to a list of role/content messages, and `main`'s
 * input loop decides which lines reach it. The HTTP request is abstracted
 * into its outcome: a reply, an HTTP error, or any other exception.
 */
module Chatbot {
  import opened Wrappers
  import Text

  datatype Role = User | Assistant

  /** One `{"role": ..., "content": ...}` entry of the conversation list. */
  datatype Message = Message(role: Role, content: string)

  /** How the chat-completion request ended. */
  datatype HttpOutcome = Replied(content: string) | HttpError | UnexpectedError

  /** The pair `chat_with_groq` returns: the reply (`None` on failure) and the list. */
  datatype ChatResult = ChatResult(reply: Option<string>, conversation: seq<Message>)

  /** The value `main` treats as "no API key configured". */
  const PlaceholderKey: string := "YOUR_GROQ_API_KEY"

  /**
   * `chat_with_groq`: a missing conversation starts empty; the user message
   * is appended before the request; on success the assistant's reply is
   * appended after it, on any failure nothing more is.
   */
  function ChatWithGroq(message: string, conversation: Option<seq<Message>>, outcome: HttpOutcome): (r: ChatResult)
    ensures var before := conversation.GetOr([]);
      && |r.conversation| == |before| + (if outcome.Replied? then 2 else 1)
      && r.conversation[..|before|] == before
      && r.conversation[|before|] == Message(User, message)
      && (outcome.Replied? ==>
            r.reply == Some(outcome.content) && r.conversation[|before| + 1] == Message(Assistant, outcome.content))
      && (!outcome.Replied? ==> r.reply == None)
  {
    var history := if conversation.None? then [] else conversation.value;
    var asked := history + [Message(User, message)];
    match outcome
    case Replied(reply) => ChatResult(Some(reply), asked + [Message(Assistant, reply)])
    case _ => ChatResult(None, asked)
  }

  /** Every assistant entry directly answers a user entry. */
  predicate WellFormed(conversation: seq<Message>) {
    forall i :: 0 <= i < |conversation| && conversation[i].role == Assistant ==>
      i > 0 && conversation[i - 1].role == User
  }

  /** A chat call keeps a well-formed conversation well formed, whatever the outcome. */
  lemma ChatKeepsWellFormed(message: string, conversation: seq<Message>, outcome: HttpOutcome)
    requires WellFormed(conversation)
    ensures WellFormed(ChatWithGroq(message, Some(conversation), outcome).conversation)
  {
    var c := ChatWithGroq(message, Some(conversation), outcome).conversation;
    forall i | 0 <= i < |c| && c[i].role == Assistant ensures i > 0 && c[i - 1].role == User {
      if i < |conversation| {
        assert c[i] == conversation[i] && c[i - 1] == conversation[i - 1];
      }
    }
  }

  /** What `main`'s loop does with one line of input. */
  datatype LoopStep = Skip | Quit | Chatted(result: ChatResult)

  /**
   * One pass of `main`'s loop: a whitespace-only line is skipped, a line that
   * lowercases to `exit` or `quit` ends the loop, anything else is sent.
   */
  function ChatbotInput(input: string, conversation: seq<Message>, outcome: HttpOutcome): (s: LoopStep)
    ensures s == Skip <==> Text.AllSpace(input)
    ensures s == Quit <==> Text.IsExitWord(input)
    ensures s.Chatted? ==> s.result == ChatWithGroq(input, Some(conversation), outcome)
  {
    Text.BlankIffAllSpace(input);
    ExitWordIsNotBlank(input);
    if Text.IsBlank(input) then Skip
    else if Text.IsExitWord(input) then Quit
    else Chatted(ChatWithGroq(input, Some(conversation), outcome))
  }

  /** An exit word starts with a letter, so it is never blank. */
  lemma ExitWordIsNotBlank(s: string)
    ensures Text.IsExitWord(s) ==> !Text.AllSpace(s)
  {
    if Text.IsExitWord(s) {
      assert Text.LowerChar(s[0]) == 'e' || Text.LowerChar(s[0]) == 'q';
    }
  }

  /** A line typed at the prompt, with the outcome its request would have. */
  datatype Turn = Turn(input: string, outcome: HttpOutcome)

  /**
   * `main`'s loop over the lines typed, ending at the first exit word. Each
   * line is handled as `ChatbotInput` handles it (`ChatSessionFollowsInput`);
   * the blank test is written here in its all-whitespace form.
   */
  function ChatSession(turns: seq<Turn>, conversation: seq<Message>): (c: seq<Message>)
    ensures |conversation| <= |c| <= |conversation| + 2 * |turns|
    decreases |turns|
  {
    if turns == [] then conversation
    else
      var t := turns[0];
      if Text.AllSpace(t.input) then ChatSession(turns[1..], conversation)
      else if Text.IsExitWord(t.input) then conversation
      else ChatSession(turns[1..], ChatWithGroq(t.input, Some(conversation), t.outcome).conversation)
  }

  /** The session handles its first line exactly as one pass of `main`'s loop does. */
  lemma ChatSessionFollowsInput(turns: seq<Turn>, conversation: seq<Message>)
    requires turns != []
    ensures ChatSession(turns, conversation) ==
      match ChatbotInput(turns[0].input, conversation, turns[0].outcome)
      case Skip => ChatSession(turns[1..], conversation)
      case Quit => conversation
      case Chatted(r) => ChatSession(turns[1..], r.conversation)
  {
    ExitWordIsNotBlank(turns[0].input);
  }

  /** `main`: nothing is sent when the API key is the placeholder. */
  function ChatbotMain(apiKey: Option<string>, turns: seq<Turn>): (conversation: seq<Message>)
    ensures apiKey == Some(PlaceholderKey) ==> conversation == []
    ensures apiKey != Some(PlaceholderKey) ==> conversation == ChatSession(turns, [])
  {
    if apiKey == Some(PlaceholderKey) then [] else ChatSession(turns, [])
  }

  /**
   * What `main` sends: nothing under the placeholder key, and otherwise
   * exactly the non-blank lines typed before the first exit word, in order,
   * in a well-formed conversation.
   */
  lemma ChatbotMainSendsAcceptedLines(apiKey: Option<string>, turns: seq<Turn>)
    ensures UserContents(ChatbotMain(apiKey, turns)) ==
      if apiKey == Some(PlaceholderKey) then [] else NonBlank(BeforeExit(Inputs(turns)))
    ensures WellFormed(ChatbotMain(apiKey, turns))
  {
    ChatSessionSendsAcceptedLines(turns, []);
    ChatSessionWellFormed(turns, []);
    assert UserContents([]) + NonBlank(BeforeExit(Inputs(turns))) == NonBlank(BeforeExit(Inputs(turns)));
  }

  function Inputs(turns: seq<Turn>): seq<string>
    decreases |turns|
  {
    if turns == [] then [] else [turns[0].input] + Inputs(turns[1..])
  }

  /** The lines before the first exit word. */
  function BeforeExit(lines: seq<string>): seq<string>
    decreases |lines|
  {
    if lines == [] || Text.IsExitWord(lines[0]) then [] else [lines[0]] + BeforeExit(lines[1..])
  }

  /** The lines that are not whitespace-only. */
  function NonBlank(lines: seq<string>): seq<string>
    decreases |lines|
  {
    if lines == [] then [] else (if Text.AllSpace(lines[0]) then [] else [lines[0]]) + NonBlank(lines[1..])
  }

  /** The contents of the user entries, in order. */
  function UserContents(conversation: seq<Message>): seq<string>
    decreases |conversation|
  {
    if conversation == [] then []
    else (if conversation[0].role == User then [conversation[0].content] else []) + UserContents(conversation[1..])
  }

  lemma {:induction false} UserContentsAppend(a: seq<Message>, b: seq<Message>)
    ensures UserContents(a + b) == UserContents(a) + UserContents(b)
    decreases |a|
  {
    if a == [] {
      assert a + b == b;
    } else {
      var head := if a[0].role == User then [a[0].content] else [];
      assert (a + b)[0] == a[0] && (a + b)[1..] == a[1..] + b;
      assert UserContents(a + b) == head + UserContents(a[1..] + b);
      UserContentsAppend(a[1..], b);
      assert head + (UserContents(a[1..]) + UserContents(b)) == (head + UserContents(a[1..])) + UserContents(b);
    }
  }

  /** The user entries a chat call adds: exactly the message sent. */
  lemma ChatAddsOneUserEntry(message: string, conversation: seq<Message>, outcome: HttpOutcome)
    ensures UserContents(ChatWithGroq(message, Some(conversation), outcome).conversation)
         == UserContents(conversation) + [message]
  {
    var u := [Message(User, message)];
    UserContentsAppend(conversation, u);
    assert UserContents(u) == [message];
    if outcome.Replied? {
      var v := [Message(Assistant, outcome.content)];
      UserContentsAppend(conversation + u, v);
      assert UserContents(v) == [];
    }
  }

  /** The accepted lines of a non-empty sequence of turns, one line at a time. */
  lemma AcceptedUnfold(turns: seq<Turn>)
    requires turns != []
    ensures var line := turns[0].input;
      var rest := NonBlank(BeforeExit(Inputs(turns[1..])));
      NonBlank(BeforeExit(Inputs(turns))) ==
        if Text.IsExitWord(line) then []
        else if Text.AllSpace(line) then rest
        else [line] + rest
  {
    var lines := Inputs(turns);
    assert lines == [turns[0].input] + Inputs(turns[1..]);
    assert lines[0] == turns[0].input && lines[1..] == Inputs(turns[1..]);
    if !Text.IsExitWord(lines[0]) {
      var b := BeforeExit(lines);
      assert b == [lines[0]] + BeforeExit(lines[1..]);
      assert b[0] == lines[0] && b[1..] == BeforeExit(lines[1..]);
    }
  }

  /** `longer` starts with all of `prefix`. */
  predicate Extends(longer: seq<Message>, prefix: seq<Message>) {
    |prefix| <= |longer| && longer[..|prefix|] == prefix
  }

  lemma ExtendsTransitive(a: seq<Message>, b: seq<Message>, c: seq<Message>)
    requires Extends(a, b) && Extends(b, c)
    ensures Extends(a, c)
  {
    assert a[..|c|] == a[..|b|][..|c|];
  }

  /** The session only ever appends to the conversation it is given. */
  lemma {:induction false} ChatSessionAppendOnly(turns: seq<Turn>, conversation: seq<Message>)
    ensures Extends(ChatSession(turns, conversation), conversation)
    decreases |turns|
  {
    if turns == [] || (!Text.AllSpace(turns[0].input) && Text.IsExitWord(turns[0].input)) {
      assert conversation[..|conversation|] == conversation;
    } else if Text.AllSpace(turns[0].input) {
      ChatSessionAppendOnly(turns[1..], conversation);
    } else {
      var t := turns[0];
      var next := ChatWithGroq(t.input, Some(conversation), t.outcome).conversation;
      assert Extends(next, conversation);
      ChatSessionAppendOnly(turns[1..], next);
      ExtendsTransitive(ChatSession(turns[1..], next), next, conversation);
    }
  }

  /**
   * The user entries a session appends are exactly the non-blank lines typed
   * before the first exit word, in order.
   */
  lemma {:induction false} ChatSessionSendsAcceptedLines(turns: seq<Turn>, conversation: seq<Message>)
    ensures UserContents(ChatSession(turns, conversation))
         == UserContents(conversation) + NonBlank(BeforeExit(Inputs(turns)))
    decreases |turns|
  {
    if turns != [] {
      var t := turns[0];
      var rest := NonBlank(BeforeExit(Inputs(turns[1..])));
      var before := UserContents(conversation);
      AcceptedUnfold(turns);
      ExitWordIsNotBlank(t.input);
      if Text.AllSpace(t.input) {
        assert ChatSession(turns, conversation) == ChatSession(turns[1..], conversation);
        assert NonBlank(BeforeExit(Inputs(turns))) == rest;
        ChatSessionSendsAcceptedLines(turns[1..], conversation);
      } else if !Text.IsExitWord(t.input) {
        var next := ChatWithGroq(t.input, Some(conversation), t.outcome).conversation;
        assert ChatSession(turns, conversation) == ChatSession(turns[1..], next);
        assert NonBlank(BeforeExit(Inputs(turns))) == [t.input] + rest;
        ChatAddsOneUserEntry(t.input, conversation, t.outcome);
        ChatSessionSendsAcceptedLines(turns[1..], next);
        assert (before + [t.input]) + rest == before + ([t.input] + rest);
      }
    }
  }

  /** Every conversation a session leaves behind is well formed. */
  lemma {:induction false} ChatSessionWellFormed(turns: seq<Turn>, conversation: seq<Message>)
    requires WellFormed(conversation)
    ensures WellFormed(ChatSession(turns, conversation))
    decreases |turns|
  {
    if turns != [] {
      var t := turns[0];
      if Text.AllSpace(t.input) {
        ChatSessionWellFormed(turns[1..], conversation);
      } else if !Text.IsExitWord(t.input) {
        ChatKeepsWellFormed(t.input, conversation, t.outcome);
        ChatSessionWellFormed(turns[1..], ChatWithGroq(t.input, Some(conversation), t.outcome).conversation);
      }
    }
  }
}

/**
 * Chat-message assembly of `services/llm/chat.py`: the index-id
 * deduplication, the context block built from a content query, the system
 * prompt, and the message list handed to the model, for both the plain chat
 * path and the agent-workflow path. The content query and the model are
 * oracles.
 */
module Chat {
  import opened Wrappers
  import opened PyText
  import Seqs
  import Tally
  import QueryResearch

  // ---------------------------------------------------------------------------
  // Message history
  // ---------------------------------------------------------------------------

  /**
   * One history string after `json.loads`: not JSON at all, JSON that raises
   * some other error when read (not an object, a role that is not a string),
   * or an object with its optional `role` and `content`.
   */
  datatype Entry =
    | Malformed
    | Unusable
    | Message(role: Option<string>, content: Option<string>)

  datatype Role = System | User | Assistant

  datatype ChatMessage = ChatMessage(role: Role, content: string)

  /** `msg_data.get('role', '').lower()`. */
  function RoleOf(e: Entry): string
    requires e.Message?
  {
    Lower(e.role.GetOr(""))
  }

  /** An entry that turns into a chat message. */
  predicate Conversational(e: Entry) {
    e.Message? && (RoleOf(e) == "user" || RoleOf(e) == "assistant")
  }

  function AsMessage(e: Entry): ChatMessage {
    if e.Message? && RoleOf(e) == "user" then ChatMessage(User, e.content.GetOr(""))
    else if e.Message? then ChatMessage(Assistant, e.content.GetOr(""))
    else ChatMessage(User, "")
  }

  /** The history loop of the chat path: each entry read in turn, problems skipped. */
  function HistoryMessages(history: seq<Entry>): (r: seq<ChatMessage>)
    ensures |r| <= |history|
    ensures forall m :: m in r ==> m.role != System
    decreases |history|
  {
    if |history| == 0 then []
    else
      var rest := HistoryMessages(history[1..]);
      var e := history[0];
      if e.Malformed? || e.Unusable? then rest
      else if RoleOf(e) == "user" then [ChatMessage(User, e.content.GetOr(""))] + rest
      else if RoleOf(e) == "assistant" then [ChatMessage(Assistant, e.content.GetOr(""))] + rest
      else rest
  }

  function IsConversational(): Entry -> bool {
    (e: Entry) => Conversational(e)
  }

  /**
   * The history messages are exactly the user and assistant entries, in
   * order: every other entry, malformed or not, is dropped without stopping
   * the loop.
   */
  lemma {:induction false} HistoryKeepsConversation(history: seq<Entry>)
    ensures HistoryMessages(history) == Seqs.Map(Seqs.Filter(history, IsConversational()), AsMessage)
    decreases |history|
  {
    if |history| > 0 {
      HistoryKeepsConversation(history[1..]);
      assert history == [history[0]] + history[1..];
      Seqs.FilterAppend([history[0]], history[1..], IsConversational());
      var tail := Seqs.Filter(history[1..], IsConversational());
      if Conversational(history[0]) {
        assert Seqs.Filter([history[0]], IsConversational()) == [history[0]];
        assert Seqs.Map([history[0]] + tail, AsMessage) == [AsMessage(history[0])] + Seqs.Map(tail, AsMessage);
      } else {
        assert Seqs.Filter([history[0]], IsConversational()) == [];
        assert [] + tail == tail;
      }
    }
  }

  /**
   * The agent path reads the same entries, but only a JSON error is caught
   * per entry: any other error abandons the whole history.
   */
  function AgentHistory(history: seq<Entry>): (r: seq<ChatMessage>)
    ensures (exists i :: 0 <= i < |history| && history[i].Unusable?) ==> r == []
    ensures (forall i :: 0 <= i < |history| ==> !history[i].Unusable?) ==> r == HistoryMessages(history)
  {
    if exists i :: 0 <= i < |history| && history[i].Unusable? then [] else HistoryMessages(history)
  }

  // ---------------------------------------------------------------------------
  // Context
  // ---------------------------------------------------------------------------

  /** A result whose stripped response is non-empty. */
  predicate HasText(s: QueryResearch.SourceResult) {
    Strip(s.response.GetOr("")) != ""
  }

  function WithText(): QueryResearch.SourceResult -> bool {
    (s: QueryResearch.SourceResult) => HasText(s)
  }

  /** `From {title}:\n{text}`, the title defaulting to `Unknown`. */
  function Passage(s: QueryResearch.SourceResult): (p: string)
    ensures StartsWith(p, "From ")
    ensures StartsWith(p, "From " + s.title.GetOr("Unknown") + ":\n")
    ensures EndsWith(p, Strip(s.response.GetOr("")))
    ensures |p| == |"From " + s.title.GetOr("Unknown") + ":\n"| + |Strip(s.response.GetOr(""))|
  {
    "From " + s.title.GetOr("Unknown") + ":\n" + Strip(s.response.GetOr(""))
  }

  lemma JoinNonEmpty(parts: seq<string>, sep: string)
    requires |parts| > 0 && StartsWith(parts[0], "From ")
    ensures StartsWith(Join(parts, sep), "From ")
  {
    if |parts| > 1 {
      assert Join(parts, sep) == parts[0] + (sep + Join(parts[1..], sep));
      assert Join(parts, sep)[..5] == parts[0][..5];
    }
  }

  /**
   * `getContext`: the passages of the results with text, separated by blank
   * lines, when the reply reports success; `""` on an error, on a reply
   * without success, or when no result has text.
   */
  function Context(reply: Result<QueryResearch.ContentReply>): (r: string)
    ensures r != "" <==> reply.Ok? && reply.value.success && exists s :: s in reply.value.results && HasText(s)
    ensures r != "" ==> StartsWith(r, "From ")
    ensures r != "" ==> r == Join(Seqs.Map(Seqs.Filter(reply.value.results, WithText()), Passage), "\n\n")
  {
    if reply.Err? || !reply.value.success then ""
    else
      var parts := Seqs.Map(Seqs.Filter(reply.value.results, WithText()), Passage);
      if |parts| == 0 then
        ""
      else
        JoinNonEmpty(parts, "\n\n");
        Join(parts, "\n\n")
  }

  // ---------------------------------------------------------------------------
  // Prompt and messages
  // ---------------------------------------------------------------------------

  const BasePrompt: string :=
    "You are a helpful AI assistant. Answer the user's question clearly and concisely. "
    + "Use Markdown formatting (like lists, bolding, or code blocks) when it improves readability. "
    + "Base your answer on the provided context and your general knowledge. "
    + "If asked about your sources, list the titles of the documents you used from the context, but NEVER show the raw context itself."

  const ContextHeader: string := "\n\nUse the following context if relevant:\nContext:\n"

  /** The system prompt, with the context appended only when there is some. */
  function SystemPrompt(context: string): (p: string)
    ensures StartsWith(p, BasePrompt)
    ensures context == "" <==> p == BasePrompt
    ensures context != "" ==> EndsWith(p, context)
  {
    if context == "" then BasePrompt else BasePrompt + ContextHeader + context
  }

  /** The messages for the model: system prompt, usable history, then the new message. */
  function Messages(message: string, history: seq<Entry>, context: string): (r: seq<ChatMessage>)
    ensures |r| >= 2
    ensures r[0] == ChatMessage(System, SystemPrompt(context))
    ensures r[|r| - 1] == ChatMessage(User, message)
    ensures forall i :: 0 < i < |r| ==> r[i].role != System
  {
    [ChatMessage(System, SystemPrompt(context))] + HistoryMessages(history) + [ChatMessage(User, message)]
  }

  /** `list(set(ids))`: the ids without repeats. */
  function UniqueIds(ids: seq<string>): (r: seq<string>)
    ensures Seqs.Distinct(r)
    ensures forall x :: x in r <==> x in ids
    ensures |r| <= |ids|
  {
    Tally.Uniq(ids)
  }

  /**
   * `get_query_response_full`: a missing key is reported, the context is
   * asked for only when index ids are given (deduplicated), and any error
   * becomes `Error: <message>`.
   */
  function QueryResponse(apiKey: string, message: string, history: seq<Entry>, ids: seq<string>,
                         queryContent: seq<string> -> Result<QueryResearch.ContentReply>,
                         chat: seq<ChatMessage> -> Result<string>): (r: string)
    ensures apiKey == "" ==> r == "Error: OpenAI API key not configured"
    ensures apiKey != "" && chat(Messages(message, history, if |ids| > 0 then Context(queryContent(UniqueIds(ids))) else "")).Err? ==>
              StartsWith(r, "Error: ")
    ensures apiKey != "" && |ids| == 0 ==>
              r == ResponseText(chat(Messages(message, history, "")))
    ensures apiKey != "" && |ids| > 0 ==>
              r == ResponseText(chat(Messages(message, history, Context(queryContent(UniqueIds(ids))))))
  {
    if apiKey == "" then "Error: OpenAI API key not configured"
    else
      var context := if |ids| > 0 then Context(queryContent(UniqueIds(ids))) else "";
      ResponseText(chat(Messages(message, history, context)))
  }

  function ResponseText(reply: Result<string>): (r: string)
    ensures reply.Err? ==> StartsWith(r, "Error: ")
    ensures reply.Err? ==> r == "Error: " + reply.error
    ensures reply.Ok? ==> r == reply.value
  {
    match reply
    case Ok(text) => text
    case Err(e) => "Error: " + e
  }

  /**
   * As `query_content` never reports success, the chat context is always
   * empty and the system prompt is the base prompt alone.
   */
  lemma NoContextWithoutSuccess(reply: Result<QueryResearch.ContentReply>, message: string, history: seq<Entry>)
    requires reply.Ok? ==> !reply.value.success
    ensures Context(reply) == ""
    ensures Messages(message, history, Context(reply))[0] == ChatMessage(System, BasePrompt)
  {
  }
}

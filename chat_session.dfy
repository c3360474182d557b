/**
 * The conversation history of src/llm/ChatSession.cpp: a system prompt and
 * the messages, the system message (when the prompt is not empty) always
 * first and never counted.
 */
module ChatSessions {
  import opened Utf8
  import opened ChatTypes

  function SystemMessage(prompt: Bytes): ChatMessage
  {
    ChatMessage(System, prompt, [], [])
  }

  /** ensureSystemPrompt: the system message goes in front when the prompt is not empty. */
  function WithPrompt(prompt: Bytes, messages: seq<ChatMessage>): (r: seq<ChatMessage>)
    ensures prompt == [] ==> r == messages
    ensures prompt != [] ==> |r| == |messages| + 1 && r[0] == SystemMessage(prompt) && r[1..] == messages
  {
    if prompt == [] then messages else [SystemMessage(prompt)] + messages
  }

  /** The messages that are not the system message: what the user and the model said. */
  function Exchange(messages: seq<ChatMessage>): nat
    decreases |messages|
  {
    if messages == [] then 0
    else Exchange(messages[..|messages| - 1]) + (if messages[|messages| - 1].role == System then 0 else 1)
  }

  /**
   * A session's history: the system message first when there is a prompt,
   * and no other system message anywhere.
   */
  predicate Wellformed(prompt: Bytes, messages: seq<ChatMessage>)
  {
    (prompt != [] ==> messages != [] && messages[0] == SystemMessage(prompt)) &&
    forall k :: (if prompt == [] then 0 else 1) <= k < |messages| ==> messages[k].role != System
  }

  /** In a well-formed history every message but the leading system message is counted. */
  lemma {:induction false} ExchangeCount(messages: seq<ChatMessage>, first: nat)
    requires first <= 1 && first <= |messages|
    requires first == 1 ==> messages[0].role == System
    requires forall k :: first <= k < |messages| ==> messages[k].role != System
    ensures Exchange(messages) == |messages| - first
    decreases |messages|
  {
    if |messages| > first {
      ExchangeCount(messages[..|messages| - 1], first);
    } else if first == 1 {
      assert messages[..0] == [];
    }
  }

  /**
   * The assistant message an agent step records for a generation result:
   * the text alone when no tool was asked for, otherwise the text with the
   * calls.
   */
  function ResultMessage(r: GenerateResult): ChatMessage
  {
    if !HasToolCalls(r) then ChatMessage(Assistant, r.text, [], [])
    else ChatMessage(Assistant, r.text, r.toolCalls, [])
  }

  /** The recorded message carries tool calls exactly when the result has some, and then all of them. */
  lemma ResultMessageCarriesCalls(r: GenerateResult)
    ensures ResultMessage(r).role == Assistant && ResultMessage(r).content == r.text
    ensures ResultMessage(r).toolCalls != [] <==> HasToolCalls(r)
    ensures ResultMessage(r).toolCalls == r.toolCalls
  {
  }

  /** A default result has no tool calls, and one with a call pushed has. */
  lemma ToolCallsDetected(call: ToolCall)
    ensures !HasToolCalls(GenerateResult([], []))
    ensures HasToolCalls(GenerateResult([], [call]))
  {
  }

  class ChatSession {
    var systemPrompt: Bytes
    var messages: seq<ChatMessage>

    predicate Valid()
      reads this
    {
      Wellformed(systemPrompt, messages)
    }

    constructor(systemPrompt: Bytes)
      ensures this.systemPrompt == systemPrompt && messages == WithPrompt(systemPrompt, [])
      ensures Valid()
    {
      this.systemPrompt := systemPrompt;
      messages := [];
      new;
      EnsureSystemPrompt();
    }

    method EnsureSystemPrompt()
      modifies this
      ensures systemPrompt == old(systemPrompt) && messages == WithPrompt(systemPrompt, old(messages))
    {
      if systemPrompt != [] {
        messages := [SystemMessage(systemPrompt)] + messages;
      }
    }

    method AddUserMessage(content: Bytes)
      modifies this
      ensures systemPrompt == old(systemPrompt) && messages == old(messages) + [ChatMessage(User, content, [], [])]
      ensures old(Valid()) ==> Valid()
    {
      messages := messages + [ChatMessage(User, content, [], [])];
    }

    method AddAssistantMessage(content: Bytes, toolCalls: seq<ToolCall>)
      modifies this
      ensures systemPrompt == old(systemPrompt) && messages == old(messages) + [ChatMessage(Assistant, content, toolCalls, [])]
      ensures old(Valid()) ==> Valid()
    {
      messages := messages + [ChatMessage(Assistant, content, toolCalls, [])];
    }

    /**
     * The session side of one agent step: a result without tool calls is
     * recorded as plain text and ends the loop; otherwise it is recorded
     * with its calls and the loop goes on.
     */
    method RecordResult(r: GenerateResult) returns (finished: bool)
      modifies this
      ensures finished == !HasToolCalls(r)
      ensures systemPrompt == old(systemPrompt) && messages == old(messages) + [ResultMessage(r)]
      ensures old(Valid()) ==> Valid()
    {
      if !HasToolCalls(r) {
        AddAssistantMessage(r.text, []);
        finished := true;
      } else {
        AddAssistantMessage(r.text, r.toolCalls);
        finished := false;
      }
    }

    /** addToolResult: isError is accepted and dropped. */
    method AddToolResult(callId: Bytes, content: Bytes, isError: bool)
      modifies this
      ensures systemPrompt == old(systemPrompt) && messages == old(messages) + [ChatMessage(Tool, content, [], callId)]
      ensures old(Valid()) ==> Valid()
    {
      messages := messages + [ChatMessage(Tool, content, [], callId)];
    }

    method Clear()
      modifies this
      ensures systemPrompt == old(systemPrompt) && messages == WithPrompt(systemPrompt, [])
      ensures Valid()
    {
      messages := [];
      EnsureSystemPrompt();
    }

    /** messageCount: the messages other than the system message. */
    function MessageCount(): (n: nat)
      reads this
      ensures n <= |messages|
      ensures systemPrompt == [] ==> n == |messages|
    {
      if systemPrompt == [] then |messages|
      else if messages == [] then 0
      else |messages| - 1
    }

    /** In a well-formed session messageCount counts exactly the messages that are not the system message. */
    lemma MessageCountSkipsSystem()
      requires Valid()
      ensures MessageCount() == Exchange(messages)
    {
      ExchangeCount(messages, if systemPrompt == [] then 0 else 1);
    }

    method SetSystemPrompt(prompt: Bytes)
      modifies this
      ensures systemPrompt == prompt && messages == WithPrompt(prompt, [])
      ensures Valid()
    {
      systemPrompt := prompt;
      messages := [];
      EnsureSystemPrompt();
    }
  }
}

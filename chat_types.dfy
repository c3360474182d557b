/**
 * The message vocabulary of src/core/Types.hpp: the four roles and their
 * wire names, the messages a chat session holds, and a generation result.
 * A tool call's JSON arguments are kept as the bytes of their text.
 */
module ChatTypes {
  import opened Utf8

  datatype Role = System | User | Assistant | Tool

  /** roleToString: the lower-case wire name of a role. */
  function RoleToString(role: Role): (s: Bytes)
    ensures s in {"system", "user", "assistant", "tool"}
    ensures s == "system" <==> role.System?
    ensures s == "user" <==> role.User?
    ensures s == "assistant" <==> role.Assistant?
  {
    match role
    case System => "system"
    case User => "user"
    case Assistant => "assistant"
    case Tool => "tool"
  }

  /** roleFromString: the role a wire name stands for; every other string is User. */
  function RoleFromString(s: Bytes): (role: Role)
    ensures role.System? <==> s == "system"
    ensures role.Assistant? <==> s == "assistant"
    ensures role.Tool? <==> s == "tool"
    ensures s !in {"system", "assistant", "tool"} ==> role == User
  {
    if s == "system" then System
    else if s == "assistant" then Assistant
    else if s == "tool" then Tool
    else User
  }

  /** Reading back the name of a role gives that role. */
  lemma RoleRoundTrip(role: Role)
    ensures RoleFromString(RoleToString(role)) == role
  {
    assert "user" != "system" && "user" != "assistant" && "user" != "tool";
  }

  /** Different roles have different names. */
  lemma RoleNamesDiffer(a: Role, b: Role)
    requires RoleToString(a) == RoleToString(b)
    ensures a == b
  {
    RoleRoundTrip(a);
    RoleRoundTrip(b);
  }

  datatype ToolCall = ToolCall(id: Bytes, name: Bytes, arguments: Bytes)

  datatype ChatMessage = ChatMessage(role: Role, content: Bytes, toolCalls: seq<ToolCall>, toolCallId: Bytes)

  datatype GenerateResult = GenerateResult(text: Bytes, toolCalls: seq<ToolCall>)

  /** hasToolCalls: whether the model asked for any tool. */
  function HasToolCalls(r: GenerateResult): (b: bool)
    ensures b <==> |r.toolCalls| > 0
  {
    r.toolCalls != []
  }
}

/** The call and result records that module-style tools (the `mtools`
    package) exchange with the agent runtime. */
module ToolEnvelope {

  /** The `ToolUse` a tool receives: its call id and its input fields. */
  datatype ToolUse = ToolUse(toolUseId: string, input: map<string, string>)

  datatype Status = Success | Error

  /** One item of a result's `content` list: `{"text": ...}`. */
  datatype ContentItem = Text(text: string)

  /** The `ToolResult` dictionary: `{toolUseId, status, content}`. */
  datatype ToolResult = ToolResult(toolUseId: string, status: Status, content: seq<ContentItem>)

  /** The successful, single-text result for the call `toolUseId`. */
  function TextResult(toolUseId: string, text: string): ToolResult {
    ToolResult(toolUseId, Success, [Text(text)])
  }

  /** `result` answers the call `use` with status "success" and one text. */
  predicate AnswersWithText(use: ToolUse, result: ToolResult, text: string) {
    result.toolUseId == use.toolUseId && result.status == Success
    && |result.content| == 1 && result.content[0] == Text(text)
  }
}

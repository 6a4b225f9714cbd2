/** The `get_user_location` tool of
    demo-tools-module/mtools/get_user_location.py. */
module UserLocation {
  import opened Common
  import opened ToolEnvelope

  const UserLocations: map<string, string> := map[
    "default" := "New York",
    "user123" := "London",
    "user456" := "Tokyo"
  ]

  /** `tool["input"].get("user_id", "default")`. */
  function UserId(tool: ToolUse): (r: string)
    ensures "user_id" in tool.input ==> r == tool.input["user_id"]
    ensures "user_id" !in tool.input ==> r == "default"
  {
    if "user_id" in tool.input then tool.input["user_id"] else "default"
  }

  /** `get_user_location(tool)`: "user123" is in London, "user456" in Tokyo,
      and every other id, an absent one included, in New York. */
  function GetUserLocation(tool: ToolUse): (r: ToolResult)
    ensures exists city :: AnswersWithText(tool, r, "User location: " + city)
    ensures AnswersWithText(tool, r, "User location: London") <==> UserId(tool) == "user123"
    ensures AnswersWithText(tool, r, "User location: Tokyo") <==> UserId(tool) == "user456"
    ensures AnswersWithText(tool, r, "User location: New York")
      <==> UserId(tool) != "user123" && UserId(tool) != "user456"
  {
    var userId := UserId(tool);
    var location := if userId in UserLocations then UserLocations[userId] else "New York";
    assert location == "New York" || location == "London" || location == "Tokyo";
    TextResult(tool.toolUseId, "User location: " + location)
  }

  /** Without a "user_id" the user is taken to be in New York. */
  lemma AbsentIdIsDefault(tool: ToolUse)
    requires "user_id" !in tool.input
    ensures GetUserLocation(tool) == TextResult(tool.toolUseId, "User location: New York")
  {
  }
}

/** The `weather` tool of demo-tools-module/mtools/weather.py: a fixed table
    of four cities and a fallback text for every other location. */
module Weather {
  import opened Common
  import opened ToolEnvelope

  const WeatherData: map<string, string> := map[
    "New York" := "Sunny, 72°F",
    "London" := "Cloudy, 55°F",
    "Tokyo" := "Rainy, 65°F",
    "Paris" := "Partly cloudy, 68°F"
  ]

  const FallbackPrefix: string := "Weather for "

  function Fallback(location: string): string {
    FallbackPrefix + location + ": Clear skies, 70°F"
  }

  /** `weather(tool)`: raises KeyError when the input has no "location";
      otherwise answers the call with the table's text for an exactly
      matching key, or the fallback text. */
  function WeatherTool(tool: ToolUse): (r: Result<ToolResult>)
    ensures "location" !in tool.input <==> r == Raised(KeyError("location"))
    ensures "location" in tool.input ==>
      var location := tool.input["location"];
      r.Ok? && AnswersWithText(tool, r.value,
        if location in WeatherData then WeatherData[location] else Fallback(location))
  {
    if "location" !in tool.input then Raised(KeyError("location"))
    else
      var location := tool.input["location"];
      Ok(TextResult(tool.toolUseId, if location in WeatherData then WeatherData[location] else Fallback(location)))
  }

  /** Lookup is exact: a known city written in another case gets the
      fallback. */
  lemma LookupIsCaseSensitive(tool: ToolUse)
    requires tool.input == map["location" := "new york"]
    ensures WeatherTool(tool) == Ok(TextResult(tool.toolUseId, "Weather for new york: Clear skies, 70°F"))
  {
    var k := "new york";
    assert k != "New York" && k != "London" && k != "Tokyo" && k != "Paris" by {
      assert k[0] == 'n';
    }
    assert k !in WeatherData;
    assert tool.input["location"] == k;
    assert Fallback(k) == "Weather for new york: Clear skies, 70°F";
  }

  /** The answer tells a known city from an unknown one: only the fallback
      starts with "Weather for ". */
  lemma FallbackIsRecognisable(tool: ToolUse)
    requires "location" in tool.input
    ensures var text := WeatherTool(tool).value.content[0].text;
      (|text| >= |FallbackPrefix| && text[..|FallbackPrefix|] == FallbackPrefix)
      <==> tool.input["location"] !in WeatherData
  {
    var location := tool.input["location"];
    if location in WeatherData {
      var v := WeatherData[location];
      assert v == "Sunny, 72°F" || v == "Cloudy, 55°F" || v == "Rainy, 65°F" || v == "Partly cloudy, 68°F";
      assert |v| < |FallbackPrefix| || v[0] != 'W';
    } else {
      assert Fallback(location)[..|FallbackPrefix|] == FallbackPrefix;
    }
  }
}

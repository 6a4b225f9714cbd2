/** The four mock tools of demo_strands_executor.py. Their `time.sleep`
    delays are left out, and the clock readings they format are passed in
    as the strings `strftime` produced. */
module ExecutorTools {
  import opened Common

  const CityWeather: map<string, string> := map[
    "New York" := "Sunny, 72°F (22°C)",
    "London" := "Cloudy, 59°F (15°C)",
    "Tokyo" := "Rainy, 68°F (20°C)",
    "Paris" := "Partly cloudy, 65°F (18°C)"
  ]

  const UnavailablePrefix: string := "Weather data not available for "

  /** `weather_tool(city)`: the table's text for the four known cities and a
      "not available" note naming any other city. */
  function WeatherTool(city: string): (r: string)
    ensures city in CityWeather ==> r == CityWeather[city]
    ensures city !in CityWeather ==> r == UnavailablePrefix + city
  {
    if city in CityWeather then CityWeather[city] else UnavailablePrefix + city
  }

  /** The "not available" note is never one of the table's texts, so the two
      outcomes cannot be confused. */
  lemma UnavailableIsRecognisable(city: string)
    ensures var r := WeatherTool(city);
      (|r| >= |UnavailablePrefix| && r[..|UnavailablePrefix|] == UnavailablePrefix) <==> city !in CityWeather
  {
    var r := WeatherTool(city);
    if city in CityWeather {
      assert r == "Sunny, 72°F (22°C)" || r == "Cloudy, 59°F (15°C)"
        || r == "Rainy, 68°F (20°C)" || r == "Partly cloudy, 65°F (18°C)";
      assert |r| < |UnavailablePrefix|;
    } else {
      assert r[..|UnavailablePrefix|] == UnavailablePrefix;
    }
  }

  const TimePrefix: string := "Current time in "

  /** `time_tool(city)`, given `clock`, the reading formatted as "%I:%M %p". */
  function TimeTool(city: string, clock: string): (r: string)
    ensures |r| == |TimePrefix| + |city| + 2 + |clock|
    ensures r[..|TimePrefix|] == TimePrefix
  {
    TimePrefix + city + ": " + clock
  }

  /** The answer is the prefix, the city, ": " and the clock reading, so the
      city and the clock reading can be read back from it. */
  lemma TimeToolFields(city: string, clock: string)
    ensures var r := TimeTool(city, clock);
      |r| == |TimePrefix| + |city| + 2 + |clock|
      && r[|TimePrefix|..|TimePrefix| + |city|] == city
      && r[|TimePrefix| + |city|..|TimePrefix| + |city| + 2] == ": "
      && r[|r| - |clock|..] == clock
  {
    var r := TimeTool(city, clock);
    assert r == TimePrefix + (city + (": " + clock));
  }

  const ScreenshotPrefix: string := "Screenshot captured successfully: "

  /** `f"screenshot_{timestamp}.png"`. */
  function ScreenshotFilename(timestamp: string): string {
    "screenshot_" + timestamp + ".png"
  }

  /** `screenshot_tool()`, given `timestamp`, the reading formatted as
      "%Y%m%d_%H%M%S". */
  function ScreenshotTool(timestamp: string): (r: string)
    ensures |r| >= |ScreenshotPrefix| && r[..|ScreenshotPrefix|] == ScreenshotPrefix
    ensures r[|ScreenshotPrefix|..] == ScreenshotFilename(timestamp)
  {
    ScreenshotPrefix + ScreenshotFilename(timestamp)
  }

  /** The confirmation names exactly the file for that timestamp: the
      timestamp is recovered from between "screenshot_" and ".png". */
  lemma ScreenshotNamesTimestamp(timestamp: string)
    ensures var r := ScreenshotTool(timestamp);
      var start := |ScreenshotPrefix| + |"screenshot_"|;
      |r| == start + |timestamp| + 4
      && r[start..start + |timestamp|] == timestamp
      && r[start + |timestamp|..] == ".png"
  {
    var r := ScreenshotTool(timestamp);
    assert r == ScreenshotPrefix + "screenshot_" + timestamp + ".png";
  }

  /** Python truthiness of the optional `attachment` argument. */
  predicate Truthy(attachment: Option<string>) {
    attachment.Some? && attachment.value != ""
  }

  /** `email_tool(recipient, subject, body, attachment)`: the confirmation
      names the recipient and the subject, and the attachment when it is
      truthy. */
  function EmailTool(recipient: string, subject: string, body: string, attachment: Option<string>): (r: string)
    ensures Truthy(attachment) ==>
      r == "Email sent to " + recipient + " with attachment '" + attachment.value + "'"
        + ". Subject: '" + subject + "'"
    ensures !Truthy(attachment) ==>
      r == "Email sent to " + recipient + ". Subject: '" + subject + "'"
  {
    var attachmentInfo := if Truthy(attachment) then " with attachment '" + attachment.value + "'" else "";
    "Email sent to " + recipient + attachmentInfo + ". Subject: '" + subject + "'"
  }

  /** The body never reaches the confirmation, and a missing attachment and
      an empty one read the same. */
  lemma EmailIgnoresBody(recipient: string, subject: string, body1: string, body2: string, attachment: Option<string>)
    ensures EmailTool(recipient, subject, body1, attachment) == EmailTool(recipient, subject, body2, attachment)
    ensures EmailTool(recipient, subject, body1, None) == EmailTool(recipient, subject, body2, Some(""))
  {
  }

  /** With a truthy attachment the confirmation is longer by exactly the
      attachment clause. */
  lemma EmailAttachmentClause(recipient: string, subject: string, body: string, attachment: string)
    requires attachment != ""
    ensures |EmailTool(recipient, subject, body, Some(attachment))|
      == |EmailTool(recipient, subject, body, None)| + |" with attachment ''"| + |attachment|
  {
  }
}

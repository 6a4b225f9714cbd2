# Strands agent demos: the tool bodies and the evaluation bookkeeping

This project models the small deterministic core of a collection of demo
scripts for the Strands agents SDK. It covers:

- the bodies of the tools the demos give their agents:
  - letter counting and string reversal;
  - fixed-table weather and user-location lookups with their result envelope;
  - the mock executor tools (weather, time, screenshot, email);
  - the Wikipedia search, summary and content formatting;
  - the web-page text cleanup and length cap;
- the bookkeeping of the agent evaluator: one record per test case, and the
  count metrics.

Everything the scripts get from outside becomes a parameter:

- network replies, after JSON decoding;
- clock readings;
- URL quoting;
- the agent itself.

Python's string built-ins that these bodies rely on are modelled once, in
module `PyText` (`pytext.dfy`):

- `lower` and `upper`;
- `str.count`;
- `split`, `join`, `strip` and `splitlines`;
- `str(n)` for a natural number;
- the "prefix + marker" truncation.

There is one module per source file:

| module | file | source |
|---|---|---|
| `Common` | `common.dfy` | shared `Option`, `Result` (value or raised Python exception), `Fetched` (outbound call that failed or returned data) |
| `PyText` | `pytext.dfy` | Python `str` semantics used by the tools |
| `LetterCounter` | `letter_counter.dfy` | `demo_strands_basic.py` |
| `CustomTools` | `custom_tools.dfy` | `demo_strands_tool_custom.py` |
| `ToolEnvelope` | `tool_envelope.dfy` | the `ToolUse` / `ToolResult` dicts of `demo-tools-module/mtools` |
| `Weather` | `weather.dfy` | `demo-tools-module/mtools/weather.py` |
| `UserLocation` | `user_location.dfy` | `demo-tools-module/mtools/get_user_location.py` |
| `ExecutorTools` | `executor_tools.dfy` | `demo_strands_executor.py` |
| `Wikipedia` | `wikipedia.dfy` | `demo-tools/demo_tool_wikipedia.py` |
| `WebContent` | `web_content.dfy` | `demo-tools/demo_tool_read_web_content.py` |
| `Evaluation` | `evaluation.dfy` | `demo-evaluation/demo_evaluation.py` |

Each tool keeps the form of its source:

- Two loops are Dafny methods with loop invariants, each proved against a
  specification function:
  - the `+=` loop of `search_wikipedia`, against the concatenation of its
    numbered entries;
  - the append loop of `evaluate_agent`, against one record per test case.
- Every other tool is a function, as its source is an expression.
- An exception that escapes a tool is a `Raised` result:
  - `KeyError` for `tool["input"]["location"]` and `case["query"]`;
  - `ValueError` for a bad `letter`.
- A failure the tool catches is the error string the tool returns.

The evaluator reads a test case's `id`, `category` and `expected` with
`.get(…, "")` defaults and indexes `query` directly, so a case without a
query raises `KeyError` and ends the run.

## Model

| member | source | states |
|---|---|---|
| PyText.Lower | demo_strands_basic.py:43 | `lower()` keeps the length and lower-cases each character on its own |
| PyText.LowerOfUpper | demo_strands_basic.py:43 | lower-casing an upper-cased text gives the lower-cased text, so upper-casing an input never changes a case-insensitive comparison |
| PyText.LowerIdempotent | demo_strands_basic.py:43 | lower-casing twice is lower-casing once |
| PyText.CountSingleChar | demo_strands_basic.py:43 | `s.count(c)` for one character is the number of positions of `s` holding `c` |
| PyText.Count | demo_strands_tool_custom.py:18 | an empty substring counts `len(s) + 1`; otherwise the occurrences do not overlap, so count times the substring length is at most the text length |
| PyText.CountFindsSub | demo_strands_tool_custom.py:18 | for a non-empty substring the count is non-zero exactly when the substring occurs in the text (`sub in s`) |
| PyText.Split | demo-tools/demo_tool_read_web_content.py:39 | `split(sep)` gives at least one piece, the first is a prefix of the text, and no piece contains `sep` |
| PyText.SplitPiecesFromText | demo-tools/demo_tool_read_web_content.py:39 | every character of a piece comes from the split text |
| PyText.JoinSplit | demo-tools/demo_tool_read_web_content.py:39 | joining the pieces of `s.split(sep)` with `sep` gives back `s`, so the split loses no character and keeps their order |
| PyText.SplitCount | demo-tools/demo_tool_read_web_content.py:39 | the number of pieces is one more than the number of non-overlapping occurrences of `sep` |
| PyText.SplitWithoutSep | demo-tools/demo_tool_read_web_content.py:39 | a text without `sep` splits into itself alone |
| PyText.Join | demo-tools/demo_tool_read_web_content.py:40 | `sep.join` of no parts is `""`; otherwise the text starts with the first part |
| PyText.JoinLast | demo-tools/demo_tool_read_web_content.py:40 | `sep.join` of some parts ends with the last part |
| PyText.SplitJoin | demo-tools/demo_tool_read_web_content.py:40 | splitting at a one-character separator undoes `join` with it when no part contains that character |
| PyText.StripLeft | demo-tools/demo_tool_read_web_content.py:38 | the result is a suffix of the text, everything dropped is whitespace and the result does not start with whitespace |
| PyText.StripRight | demo-tools/demo_tool_read_web_content.py:38 | the result is a prefix of the text, everything dropped is whitespace and the result does not end with whitespace |
| PyText.Strip | demo-tools/demo_tool_read_web_content.py:38-39 | `strip()` is a slice of the text with only whitespace outside it and no whitespace at either end |
| PyText.StripTrimmed | demo-tools/demo_tool_read_web_content.py:38-39 | a text without whitespace at its ends is left unchanged by `strip()` |
| PyText.SplitLines | demo-tools/demo_tool_read_web_content.py:38 | no line of `splitlines()` holds a line-boundary character, and a non-empty text has at least one line |
| PyText.SplitLinesPrefixedLine | demo-tools/demo_tool_read_web_content.py:38 | a break-free line followed by `\n` is the first line of the text |
| PyText.SplitLinesOneLine | demo-tools/demo_tool_read_web_content.py:38 | a non-empty break-free text is a single line |
| PyText.SplitLinesJoin | demo-tools/demo_tool_read_web_content.py:38-40 | `splitlines()` undoes `"\n".join` of non-empty break-free lines |
| PyText.NatToDecimal | demo-tools/demo_tool_wikipedia.py:43-44 | `str(n)` is a non-empty run of digits with no leading zero except for `0` itself |
| PyText.DecimalRoundTrip | demo-tools/demo_tool_wikipedia.py:43-44 | reading back the digits of `str(n)` gives `n` |
| PyText.DecimalInjective | demo-tools/demo_tool_wikipedia.py:43-44 | different numbers print differently |
| PyText.Truncate | demo-tools/demo_tool_wikipedia.py:133-135 | a text of at most `max_length` characters is unchanged, a longer one is its first `max_length` characters followed by the marker |
| PyText.TruncateIdempotent | demo-tools/demo_tool_wikipedia.py:133-135 | truncating a truncated text changes nothing |
| PyText.TruncateBounds | demo-tools/demo_tool_read_web_content.py:43-45 | the result is at most `max_length` plus the marker length and begins with the first `min(len, max_length)` characters of the text |
| LetterCounter.LetterCounter | demo_strands_basic.py:37-43 | if either argument is not a `str` the result is 0, and this is checked first; otherwise a `letter` of length other than 1 raises `ValueError` with the source's message; otherwise the result is the number of positions where the lower-cased word holds the lower-cased letter |
| LetterCounter.LetterCounterBounded | demo_strands_basic.py:43 | the count is between 0 and the length of `word` |
| LetterCounter.LetterCounterIgnoresCase | demo_strands_basic.py:43 | upper-casing `word` or `letter` does not change the result |
| CustomTools.CountLetterInWord | demo_strands_tool_custom.py:18-23 | the record echoes `word` and `letter` as given and its count is `str.count` of the lower-cased letter in the lower-cased word; an empty `letter` counts `len(word) + 1`; otherwise the count times `len(letter)` is at most `len(word)`, and it is non-zero exactly when the lower-cased letter occurs in the lower-cased word |
| CustomTools.CountToolsAgree | demo_strands_tool_custom.py:18 | for a one-character letter, both counting tools give the same number |
| CustomTools.CountIsNonOverlapping | demo_strands_tool_custom.py:18 | a multi-character `letter` counts non-overlapping substrings: `("aaaa", "AA")` counts 2 |
| CustomTools.CountLetterIgnoresCase | demo_strands_tool_custom.py:18 | upper-casing both arguments leaves the count unchanged |
| CustomTools.ReverseString | demo_strands_tool_custom.py:36 | `text[::-1]` has the same length and holds `text[len-1-i]` at position `i` |
| CustomTools.ReverseTwice | demo_strands_tool_custom.py:36 | reversing twice gives back the text |
| Weather.WeatherTool | demo-tools-module/mtools/weather.py:22-43 | a missing `location` raises `KeyError`; otherwise the result echoes `toolUseId`, has status success and exactly one text item, which is the table value for a listed city and `"Weather for {location}: Clear skies, 70°F"` for any other |
| Weather.LookupIsCaseSensitive | demo-tools-module/mtools/weather.py:34-37 | `"new york"` is not the key `"New York"` and gets the fallback text |
| Weather.FallbackIsRecognisable | demo-tools-module/mtools/weather.py:27-37 | the answer starts with `"Weather for "` exactly when the location is not in the table |
| UserLocation.UserId | demo-tools-module/mtools/get_user_location.py:12 | the `user_id` input when it is given, `"default"` when it is absent |
| UserLocation.GetUserLocation | demo-tools-module/mtools/get_user_location.py:10-27 | the result echoes `toolUseId` with status success and the single text `"User location: " + city`; it is London exactly for `user123`, Tokyo exactly for `user456`, and New York for every other id |
| UserLocation.AbsentIdIsDefault | demo-tools-module/mtools/get_user_location.py:12-21 | with no `user_id` the answer is New York |
| ExecutorTools.WeatherTool | demo_strands_executor.py:45-52 | a listed city gets its table value, any other gets `"Weather data not available for {city}"` |
| ExecutorTools.UnavailableIsRecognisable | demo_strands_executor.py:45-52 | the answer starts with the not-available prefix exactly when the city is unlisted |
| ExecutorTools.TimeTool | demo_strands_executor.py:70-71 | the answer starts with `"Current time in "` and is as long as that prefix, the city, `": "` and the clock reading together |
| ExecutorTools.TimeToolFields | demo_strands_executor.py:70-71 | the answer is `"Current time in "`, then the city, then `": "`, then the clock reading, and both can be read back from it |
| ExecutorTools.ScreenshotTool | demo_strands_executor.py:85-88 | the answer is the fixed confirmation prefix followed by the file name |
| ExecutorTools.ScreenshotNamesTimestamp | demo_strands_executor.py:85-88 | the file name is `"screenshot_" + timestamp + ".png"` and the timestamp can be read back from the answer |
| ExecutorTools.EmailTool | demo_strands_executor.py:108-109 | the attachment clause appears when the attachment is truthy and is absent otherwise, around the recipient and subject |
| ExecutorTools.EmailIgnoresBody | demo_strands_executor.py:108-109 | the body never affects the answer, and `None` and `""` attachments give the same answer |
| ExecutorTools.EmailAttachmentClause | demo_strands_executor.py:108 | a non-empty attachment lengthens the answer by exactly the clause `" with attachment '…'"` |
| Wikipedia.Min3 | demo-tools/demo_tool_wikipedia.py:43 | `zip` stops at the shortest list: the result is one of the three lengths and at most each |
| Wikipedia.SearchEntry | demo-tools/demo_tool_wikipedia.py:44-47 | an entry starts with its numbered bold title line and ends with its indented URL line; with an empty description it is just those two lines |
| Wikipedia.SearchEntries | demo-tools/demo_tool_wikipedia.py:43-47 | there is one entry per zipped triple |
| Wikipedia.SearchWikipedia | demo-tools/demo_tool_wikipedia.py:34-52 | a failed call gives the search error string; no titles gives the not-found sentence; otherwise the header followed by all entries in order, which the `+=` loop builds one entry per turn |
| Wikipedia.SearchEntryNumbered | demo-tools/demo_tool_wikipedia.py:43-44 | entry `i` starts with the decimal number `i + 1`, so entries are numbered from 1 |
| Wikipedia.SearchDescriptionLine | demo-tools/demo_tool_wikipedia.py:45-46 | a description adds its own line only when non-empty, and that line, read back right after the title line, is three spaces, the description and a line break |
| Wikipedia.SearchHeaderOnly | demo-tools/demo_tool_wikipedia.py:42-49 | titles with no descriptions or no URLs zip to nothing, so the answer is the bare header |
| Wikipedia.GetWikipediaSummary | demo-tools/demo_tool_wikipedia.py:76-90 | a failed call gives the summary error string; the not-found type gives the not-found sentence; otherwise the answer is the bold title (default `Unknown`), a blank line, the extract (default `No summary available.`), a blank line and `Read more: ` with the desktop page URL |
| Wikipedia.SummaryDefaults | demo-tools/demo_tool_wikipedia.py:81-85 | for a found page, each field on its own: the title, or `Unknown` when it is missing, the extract, or `No summary available.` when it is missing, and the URL can each be read back at a fixed place of the answer |
| Wikipedia.DesktopPageUrl | demo-tools/demo_tool_wikipedia.py:83 | the link is `content_urls["desktop"]["page"]` when every level is present, and `""` otherwise |
| Wikipedia.SummaryUrlDefaults | demo-tools/demo_tool_wikipedia.py:83 | a missing level of `content_urls.desktop.page` gives the empty URL |
| Wikipedia.Pages | demo-tools/demo_tool_wikipedia.py:123-124 | the page list of `query.pages`, and no pages when `query` or `pages` is missing |
| Wikipedia.SpacesToUnderscores | demo-tools/demo_tool_wikipedia.py:138 | `replace(' ', '_')` keeps the length and changes exactly the spaces |
| Wikipedia.GetWikipediaContent | demo-tools/demo_tool_wikipedia.py:122-145 | a failed call, or no pages at all, gives the content error string; a page marked missing gives the not-found sentence; otherwise the report of the page with the defaulted title and extract and the article URL |
| Wikipedia.ContentReport | demo-tools/demo_tool_wikipedia.py:140 | the report is `"**"`, the page title, `"**\n\nURL: "`, the page URL, `"\n\n"` and the truncated extract, each read back at its fixed place, with nothing else |
| Wikipedia.ContentTruncation | demo-tools/demo_tool_wikipedia.py:133-140 | the report ends with the extract when it has at most 10000 characters, otherwise with its first 10000 characters and the marker |
| WebContent.Phrases | demo-tools/demo_tool_read_web_content.py:38-39 | every line yields at least one phrase, possibly empty |
| WebContent.NonEmpty | demo-tools/demo_tool_read_web_content.py:40 | the filter keeps every non-empty chunk and nothing else, and never lengthens the list |
| WebContent.NonEmptyAppend | demo-tools/demo_tool_read_web_content.py:40 | filtering a concatenation is concatenating the filtered parts, so the kept chunks stay in input order |
| WebContent.NonEmptyKeepsAll | demo-tools/demo_tool_read_web_content.py:40 | a list with no empty element passes the filter unchanged |
| WebContent.PhraseIsChunk | demo-tools/demo_tool_read_web_content.py:38-39 | a non-empty phrase of a break-free line has no whitespace at either end, no double space and no line break |
| WebContent.AllPhrasesAreChunks | demo-tools/demo_tool_read_web_content.py:38-39 | the same for every phrase of every line |
| WebContent.Chunks | demo-tools/demo_tool_read_web_content.py:38-40 | every kept chunk is non-empty, trimmed, and free of double spaces and line breaks |
| WebContent.CleanWhitespace | demo-tools/demo_tool_read_web_content.py:37-40 | the cleaned text is empty exactly when no chunk is kept, and otherwise neither starts nor ends with whitespace |
| WebContent.CleanSplitsIntoChunks | demo-tools/demo_tool_read_web_content.py:40 | the cleaned text split at `\n` is exactly the chunks, so it has no empty line and no line with whitespace at an end |
| WebContent.ChunksInOrder | demo-tools/demo_tool_read_web_content.py:38-40 | the chunks of a line come before those of the lines after it |
| WebContent.CleanKeepsChunk | demo-tools/demo_tool_read_web_content.py:38-40 | a single trimmed phrase with single spaces inside survives the cleanup unchanged |
| WebContent.VisibleStrip | demo-tools/demo_tool_read_web_content.py:38-39 | stripping removes only whitespace: the other characters stay, in order |
| WebContent.VisiblePhrases | demo-tools/demo_tool_read_web_content.py:38-39 | the phrases of a line hold exactly its non-whitespace characters, in order |
| WebContent.VisibleSplitLines | demo-tools/demo_tool_read_web_content.py:38 | the lines of a text hold exactly its non-whitespace characters, in order |
| WebContent.CleanKeepsContent | demo-tools/demo_tool_read_web_content.py:37-40 | the cleanup drops only whitespace: every other character of the text survives, in its order |
| WebContent.CleanTrimsLine | demo-tools/demo_tool_read_web_content.py:38-40 | a single line with no double space inside cleans to that line stripped of its outer whitespace |
| WebContent.SplitAtDoubleSpace | demo-tools/demo_tool_read_web_content.py:39 | a piece with no double space that does not end in a space is the first piece of the split at `"  "` when a double space follows it, and the split goes on from after that double space |
| WebContent.KeptAfterSpaces | demo-tools/demo_tool_read_web_content.py:39-40 | any number of spaces in front of text that starts with a non-space character adds no kept phrase: each double space makes an empty piece the filter drops, and a single leftover space is stripped off the next piece |
| WebContent.KeptSpacedLine | demo-tools/demo_tool_read_web_content.py:39-40 | a line of trimmed chunks without double spaces, separated by runs of two or more spaces, each run of its own length, split at `"  "`, stripped and filtered gives back exactly those chunks, in order |
| WebContent.CleanSplitsAtSpaceRuns | demo-tools/demo_tool_read_web_content.py:37-40 | such a line is cut at every run of two or more spaces and nowhere else, whatever the length of each run: the chunks, single spaces inside them and all, become the lines of the cleaned text, in order |
| WebContent.CleanSplitsAtDoubleSpaces | demo-tools/demo_tool_read_web_content.py:37-40 | the case where every run is exactly two spaces: a line of chunks joined by `"  "` cleans to the same chunks joined by `"\n"` |
| WebContent.CleanIdempotent | demo-tools/demo_tool_read_web_content.py:37-40 | cleaning a cleaned text changes nothing |
| WebContent.FetchUrlContent | demo-tools/demo_tool_read_web_content.py:37-52 | a request failure gives `"Error fetching URL: …"`, any other failure `"Error processing content: …"`; a cleaned text of at most 8000 characters is returned as is, a longer one as its first 8000 characters plus the marker, 8000 plus the marker length in all |
| Evaluation.RecordOf | demo-evaluation/demo_evaluation.py:30-37 | the record copies the query verbatim and holds the given reply text and time |
| Evaluation.RecordDefaults | demo-evaluation/demo_evaluation.py:31-34 | a missing `id`, `category` or `expected` becomes `""`, a present one is copied |
| Evaluation.EvaluateAgent | demo-evaluation/demo_evaluation.py:20-50 | the run succeeds exactly when every case has a query; then there is one record per case, in order, built from that case and the string form of the agent's reply to it; the agent is asked each query once, in order; a case without a query raises `KeyError` after the agent has been asked exactly the earlier queries |
| Evaluation.Categories | demo-evaluation/demo_evaluation.py:61 | the category column lists each record's category in order |
| Evaluation.CategoryCounts | demo-evaluation/demo_evaluation.py:61 | the counted categories are exactly those that occur in the records, and each count is how many records carry that category |
| Evaluation.AnalyzeResults | demo-evaluation/demo_evaluation.py:54-61 | no records raises `KeyError`; otherwise `total_tests` is the number of records and `categories` holds the category counts |
| Evaluation.OccurrencesPositive | demo-evaluation/demo_evaluation.py:61 | an element that occurs is counted at least once |
| Evaluation.CategoryCountsPositive | demo-evaluation/demo_evaluation.py:61 | every category that occurs has a count of at least 1 |
| Evaluation.SumOccurrencesTotal | demo-evaluation/demo_evaluation.py:61 | over distinct keys covering the list, the occurrence counts add up to the list's length |
| Evaluation.CategoryCountsSum | demo-evaluation/demo_evaluation.py:58-61 | the category counts, summed over a listing of the categories that names each once, equal `total_tests` |

## Left out

- HTTP requests, `raise_for_status`, `response.json()` and BeautifulSoup parsing (including the `decompose` loop) are foreign calls. Each outbound call is modelled as its outcome: the decoded data, or the text of the exception it raised.
- `requests.utils.quote` is a function parameter of `Wikipedia.GetWikipediaContent`. In `get_wikipedia_summary` it only shapes the request, so it is not modelled there.
- Wikipedia.SearchWikipedia: the model types items 1 to 3 of the reply as three lists of strings. Other shapes are not covered: items that are not strings (the f-strings format them with `str()` and `if desc:` tests their truthiness), a string in place of a list (zipped character by character), and replies too short or not iterable, whose exception the `try` turns into the error string.
- Wikipedia.GetWikipediaSummary: the model types the title, extract and URL as strings and `content_urls` as a dict of dicts. A title, extract or URL that is present but not a string is formatted with `str()` in the source. A `content_urls` or `desktop` value that is present but not a dict makes `.get` raise at line 83, and the source returns the summary error string. Neither path is covered.
- Wikipedia.GetWikipediaContent: the pages dict, which is keyed by page id, is a sequence of its values taken in dict order.
- Wikipedia.GetWikipediaContent: the model types each page as a record whose `extract` and `title` are absent or strings. Three shapes of the reply are not covered, and in each the `try` turns the exception into `"Error getting Wikipedia content: …"`: a page that is not a dict, which makes `'missing' in page` fail; a null or non-string `extract`, which makes `len(extract)` raise `TypeError`; and a non-string title, which makes `.replace` raise `AttributeError`.
- `time.sleep`, `datetime.now()` and `strftime` are clock I/O:
  - `time_tool` and `screenshot_tool` take the formatted clock reading as a string;
  - `evaluate_agent`'s durations are a parameter `elapsed(i)`, and nothing is claimed about their sign.
- Evaluation.EvaluateAgent: the agent is a deterministic function from query to reply. An exception raised by the agent would propagate in the source; the model does not cover it. The JSON results file and the console messages are file and console output, so they are left out.
- Evaluation.AnalyzeResults: `avg_response_time` and `max_response_time` are pandas float aggregates, and the bar chart is matplotlib output. Only the count metrics are modelled. For no records the model still raises the `KeyError` that selecting `response_time` raises first.
- Evaluation.CategoryCountsSum: the model types each test-case field as absent or a string. A JSON `null` or other non-string value is not covered. A `null` category reads back as `None`, which pandas' `value_counts()` drops, so in the source the counts would then add up to less than `total_tests`; a `null` query would be passed to the agent as `None`.
- `lower()` and `upper()` are modelled for ASCII letters only. Python's Unicode case mapping can change a text's length, and that is not modelled.
- CustomTools.CountLetterInWord: `word` and `letter` are typed as strings. The tool has no type guard, so a non-`str` argument raises `AttributeError` at `.lower()`; that path is not modelled.
- CustomTools.ReverseString: `text` is typed as a string. A non-sequence argument makes `text[::-1]` raise `TypeError`; that path is not modelled.
- LetterCounter.LetterCounter: a non-`str` argument is one abstract value. Which other Python type it has does not matter to the guard.
- WebContent.CleanWhitespace: where a line is cut is stated for lines made of chunks and runs of plain spaces (`CleanSplitsAtSpaceRuns`). For a gap that mixes tabs or other whitespace with spaces, and for whitespace at a line's ends, only what survives is stated (`CleanKeepsContent`, `CleanSplitsIntoChunks`, `CleanTrimsLine`), not where the cut falls.
- WebContent.Phrases: its own contract states only that a line yields at least one phrase. Where the phrases of a line are cut is stated by `KeptSpacedLine` for the same lines as above.
- Weather.WeatherTool / UserLocation.GetUserLocation: the tool-use envelope's `toolUseId` and `input` are assumed present, and its input values are typed as strings. In the source, a missing `toolUseId` raises `KeyError` at demo-tools-module/mtools/weather.py:23 and demo-tools-module/mtools/get_user_location.py:11, before the input is read; a missing `input` raises `KeyError` on the next line of each. A non-string input value is formatted by the f-string or used as a dict key. None of these paths is modelled.
- The executor's concurrent and sequential tool execution is SDK configuration, not code of these scripts.
- The SDK-only scripts carry no logic of their own, so they are not modelled:
  - agent construction, logging, MCP, conversation history and the async or callback handlers;
  - the request-state counter, which depends on how many events the SDK emits;
  - the knowledge-base tool, a `retrieve` wrapper with float formatting;
  - the currency converter, which is float arithmetic and rounding.

# AI-Butler in Dafny

AI-Butler is a Telegram bot that relays a user's messages to an LLM agent
(the butler "Cristóbal"). It keeps one conversation per user and formats the
agent's answer. The agent's sarcastic asides, written between `<sarcasm>` and
`</sarcasm>`, are lifted out of the answer and appended as separate italic
blocks. The agent can call lookup tools: the current weather, the latest news
and (in the tool module, not in the bot's catalog) a web search and a page
fetch.

This project models the deterministic core of the bot and proves properties
of that model:

- `app.dfy`, module `App`: the per-user conversation store `user_memories` as
  the class `ConversationStore`. It covers auto-creation on read, the append
  of one exchange after a successful agent call, the apology on failure, the
  per-user `/reset` and the global reset route. It also covers the
  `chat_history`, `tools` and `tool_names` texts handed to the agent.
- `sarcasm.dfy`, module `Sarcasm`: `format_sarcastic_response`. The regular
  expression `<sarcasm>(.*?)</sarcasm>` with DOTALL is an explicit
  leftmost, non-greedy scanner (`Tokenize`) over the characters of the
  answer.
- `weather.dfy`, module `WeatherTool`: `get_coordinates` and `get_weather`.
- `news.dfy`, module `NewsTool`: `get_news`, including the choice of endpoint
  and parameters.
- `internet.dfy`, module `InternetTool`: `search_internet` and
  `get_webpage_content`, including the text cleanup and the truncation.
- `text.dfy`, module `Text`: the Python string operations these rely on:
  `strip`, `split`, `join`, `splitlines`, substring search and the decimal
  rendering of an index.
- `wrappers.dfy` holds `Option`; `tooling.dfy` holds a tool's name and
  description.

The outside world enters as function-typed parameters. The contracts say how
each answer is mapped. For the agent, the search, the page fetch and the
news, they also say what goes out. For the weather calls, only the location
and the coordinates go out (see "Left out"):

- the agent: `AgentInput -> Option<string>`, where `None` means it raised;
- the search engine: `(string, int) -> SearchResponse`;
- the page download followed by HTML-to-text: `string -> PageFetch`;
- the geocoding and current-weather calls;
- the NewsAPI call: `NewsRequest -> NewsResponse`.

API keys are `Option<string>` parameters. A key that is `None` or empty is
missing, as Python's `if not KEY` decides.

## Model

| member | source | states |
|---|---|---|
| App.ConversationStore.constructor | app.py:53 | the store starts with no conversations |
| App.ConversationStore.GetOrCreate | app.py:70-77 | a known user's history is returned and nothing changes; an unknown user gets an empty history; no other entry changes; every stored history stays a sequence of exchanges |
| App.ConversationStore.ProcessMessage | app.py:171-209 | the agent is asked with the message and the prior history. If it answers, exactly the message and then the answer are appended to that user's history and the reply is the formatted answer. If it fails, the reply is the fixed apology and the history is at most created. No other user's history changes |
| App.ConversationStore.RecordExchange | app.py:199-200 | the user's message and then the agent's answer are appended to that user's history and nowhere else |
| App.ConversationStore.ResetUser | app.py:217-224 | only the sender's entry is removed (their history then reads as empty, everyone else's is unchanged); the reply says whether there was one |
| App.ConversationStore.ResetAll | app.py:255-260 | every conversation is removed and the fixed confirmation is returned |
| App.PairedExtend | app.py:199-200 | appending one human turn and one AI turn keeps a history a sequence of exchanges |
| App.PairedAlternates | app.py:178-181 | the history text of a stored conversation alternates `Human:` and `AI:` lines, starting with `Human:` and ending with `AI:` |
| App.TurnLineParses | app.py:179 | a `Human: …` or `AI: …` line reads back as the turn it renders |
| App.HistoryRoundTrip | app.py:178-181 | the history text read back line by line gives every message of the prior history, in order, when no message holds a line break |
| App.HistoryExtends | app.py:178-181 | after an exchange the history text is the previous text plus the `Human:` line and the `AI:` line |
| App.RequestCarriesPrior | app.py:187-193 | the agent's input is the message, its history is the prior conversation without the message, and its tool names are `get_weather, get_news` |
| App.CatalogLines | app.py:191 | the tool catalog read back line by line is one `name: description` line per tool, in order |
| App.ToolNamed | app.py:192 | each tool name appears in the names text after the earlier names and their `, ` separators |
| App.ToolNamesOfTools | app.py:65-68 | the catalog holds the weather tool then the news tool, so the names text is `get_weather, get_news` |
| App.ChatHistory | app.py:178-181 | the `chat_history` text: one `Human: …` or `AI: …` line per stored message, in order, joined by newlines |
| App.ToolCatalog | app.py:191 | the `tools` text: one `name: description` line per tool, joined by newlines |
| App.ToolNames | app.py:192 | the `tool_names` text: the tool names joined by `, ` |
| App.AgentRequest | app.py:187-193 | the invocation: the message as input, the history text, the system prompt, the catalog and the names of the bot's two tools |
| Sarcasm.Tokenize | app.py:155-161 | the scan splits the answer into kept characters and asides that render back to the whole answer, as a leftmost non-greedy scan would |
| Sarcasm.Asides | app.py:158 | `findall`: the contents of the matches, in order |
| Sarcasm.Remainder | app.py:161 | `sub('', …)`: the answer with every match, tags included, removed |
| Sarcasm.Block | app.py:166 | one aside framed as `\n\n💭 _` + aside + `_` |
| Sarcasm.Reply | app.py:164-167 | the trimmed answer, followed by the blocks of the trimmed asides only when there is at least one |
| Sarcasm.TokenizeUnique | app.py:155 | the leftmost, non-greedy reading is the only well-formed reading of an answer |
| Sarcasm.TokenizePlainStep | app.py:155 | a character that does not start a complete tag pair is kept |
| Sarcasm.TokenizeAsideStep | app.py:155 | a tag pair is lifted out with its content ending at the first closing tag |
| Sarcasm.MatchIffAside | app.py:158 | asides are extracted exactly when the answer holds a complete tag pair |
| Sarcasm.NoMatchKeepsAll | app.py:158-161 | with no complete tag pair nothing is extracted and every character is kept |
| Sarcasm.FormatWithoutMatch | app.py:155-169 | with no complete tag pair the reply is the answer, trimmed |
| Sarcasm.AsidesHoldNoClose | app.py:155 | no extracted content contains `</sarcasm>` |
| Sarcasm.MultilineAside | app.py:155 | an aside may span lines: the newline stays in the content |
| Sarcasm.Format | app.py:161-167 | the reply begins with the answer minus every match, tags included, trimmed |
| Sarcasm.FormatBlockAt | app.py:164-167 | block `i` of the reply is `\n\n💭 _` + aside `i` trimmed + `_`, right after the trimmed answer and blocks `0..i-1` |
| Sarcasm.FormatLength | app.py:161-167 | the reply is exactly as long as the trimmed answer and one block per aside together, so nothing else is appended |
| Sarcasm.BlockAt | app.py:166-167 | after the trimmed answer the blocks follow one another in the order of the asides |
| Sarcasm.BlockOf | app.py:166 | block `i` frames the `i`-th trimmed aside as `\n\n💭 _…_` |
| Sarcasm.TextThenAside | app.py:155-161 | text without `<` before an aside is kept and the aside is extracted |
| Sarcasm.TwoAsides | app.py:155-169 | an answer with two asides gives the trimmed remaining text followed by the two blocks, in order |
| WeatherTool.GetCoordinates | tools/weather_tool.py:16-33 | the coordinates of the first place; none when the reply is empty, a key is missing or the lookup fails |
| WeatherTool.Found | tools/weather_tool.py:47 | the coordinates count as found only when both are present and neither is zero, as `not lat or not lon` decides |
| WeatherTool.Description | tools/weather_tool.py:61-62 | the condition text is missing only when the reply's `weather` list is present but empty (which raises in the source) |
| WeatherTool.Capitalize | tools/weather_tool.py:75 | `str.capitalize()`: same length, first character upper-cased, the rest lower-cased |
| WeatherTool.Header | tools/weather_tool.py:58-75 | the first line: the reply's city name or else the location, `, country` when the country is not empty, then the capitalized condition |
| WeatherTool.Readings | tools/weather_tool.py:64-84 | the four readings in the fixed order: temperature and feels-like in `°C`, humidity in `%`, wind speed in `m/s` |
| WeatherTool.Report | tools/weather_tool.py:71-84 | the report: the header followed by the line of each present reading |
| WeatherTool.PresentLinesCount | tools/weather_tool.py:77-84 | one line per present reading, none for an absent one |
| WeatherTool.PresentLineAt | tools/weather_tool.py:77-84 | a present reading's line comes right after the lines of the present readings before it |
| WeatherTool.PresentLinesFromReadings | tools/weather_tool.py:77-84 | every reading line belongs to a present reading |
| WeatherTool.ReportStep | tools/weather_tool.py:77-84 | each conditional append extends the report over one more reading |
| WeatherTool.AppendReading | tools/weather_tool.py:77-84 | a reading's line is appended exactly when the reply has its value |
| WeatherTool.BuildHeader | tools/weather_tool.py:58-75 | the header: the reply's city name, else the location; `, country` only when the country is not empty; then the capitalized condition line |
| WeatherTool.BuildReport | tools/weather_tool.py:71-84 | the report is the header followed by the lines of the present readings, in the fixed order |
| WeatherTool.GetWeather | tools/weather_tool.py:35-94 | no key gives the unavailability text; missing or zero coordinates give the not-found text; an HTTP error gives the connection message; any other failure gives the generic message; otherwise the report |
| NewsTool.RequestFor | tools/news_tool.py:37-51 | top-headlines if and only if a category or a country is given and not empty; `apiKey`, `q`, `pageSize=5` and `language=es` always; `category` and `country` exactly when given |
| NewsTool.BuildRequest | tools/news_tool.py:36-51 | the request built by reassigning the URL and adding parameters is the one `RequestFor` specifies |
| NewsTool.SourceName | tools/news_tool.py:66 | the source's name, `Fuente desconocida` when the source or its name is missing |
| NewsTool.ArticleText | tools/news_tool.py:65-70 | one entry after its number: title, source in parentheses, description and URL, each with its default |
| NewsTool.FormatArticles | tools/news_tool.py:61-73 | the heading `Últimas noticias:` and then one numbered entry per article, from 1, in order, with the defaults for missing fields |
| NewsTool.GetNews | tools/news_tool.py:17-80 | no key gives the unavailability text; an HTTP error gives the connection message; another failure gives the message with its text; a missing or zero total gives the no-news message; otherwise the numbered list |
| InternetTool.FormatResults | tools/internet_tool.py:31-41 | the heading naming the query and then one numbered entry per result, from 1, in order, with the defaults for missing fields |
| InternetTool.HitText | tools/internet_tool.py:35-39 | one entry after its number: title, body and link, each with its default |
| InternetTool.SearchInternet | tools/internet_tool.py:11-45 | a failure gives its message; no results give the message naming the query; otherwise the numbered list of all results |
| InternetTool.CleanTextLines | tools/internet_tool.py:77-82 | no line of the cleaned text is empty, has leading or trailing whitespace, or holds two consecutive spaces |
| InternetTool.CleanTextIdempotent | tools/internet_tool.py:77-82 | cleaning the cleaned text again changes nothing |
| InternetTool.ChunksShape | tools/internet_tool.py:78-80 | every phrase is stripped and holds no double space and no line break |
| InternetTool.Phrases | tools/internet_tool.py:80 | the phrases of one line: the stripped line split at double spaces, each piece stripped |
| InternetTool.Chunks | tools/internet_tool.py:78-80 | the phrases of every line, line after line |
| InternetTool.CleanText | tools/internet_tool.py:77-82 | the non-empty phrases of the page's lines joined by newlines |
| InternetTool.NonBlank | tools/internet_tool.py:82 | the kept chunks are non-empty chunks of the input |
| InternetTool.NonBlankKeeps | tools/internet_tool.py:82 | every non-empty chunk is kept, so a chunk is kept if and only if it is not empty |
| InternetTool.NonBlankAppend | tools/internet_tool.py:82 | the filter keeps the order: filtering two runs of chunks is filtering each and concatenating |
| InternetTool.CleanTextKeeps | tools/internet_tool.py:77-82 | every non-empty phrase of the page's lines is one of the lines of the cleaned text |
| InternetTool.SlicePrefix | tools/internet_tool.py:86 | Python's `text[:m]`, including a negative `m` |
| InternetTool.Truncate | tools/internet_tool.py:84-86 | a text that fits is unchanged; a longer one becomes its first `max_length` characters and the marker; the result is at most `max_length` plus the marker long |
| InternetTool.Cut | tools/internet_tool.py:85-86 | the conditional reassignment of `text` is the truncation |
| InternetTool.GetWebpageContent | tools/internet_tool.py:47-92 | a fetched page gives `Contenido de {url}:\n\n` and the cleaned, truncated text; any failure gives the error-prefixed message |
| Text.NumberedListAt | tools/news_tool.py:62-73 | the heading comes first, entry `i` follows the earlier entries and separators, and entry `i` carries the number `i + 1` |
| Text.NumberedNumber | tools/news_tool.py:70 | an entry `f"{idx}. …"` reads back as its number |
| Text.NumberedList | tools/news_tool.py:62-73 | the heading and then entry `i` as `{i + 1}. ` + text `i`, joined by newlines |
| Text.ParseNatToString | tools/internet_tool.py:39 | the decimal rendering of an index reads back as that index |
| Text.JoinSplit | tools/internet_tool.py:80 | joining the pieces of a split with the separator gives back the text |
| Text.SplitJoin | tools/internet_tool.py:82 | splitting a join at a one-character separator gives back the parts when none holds the separator |
| Text.SplitPieces | tools/internet_tool.py:80 | no piece of a split holds the separator, and its characters are the input's |
| Text.Split | tools/internet_tool.py:80 | `str.split(sep)`: at least one piece, cut at each leftmost occurrence of the separator |
| Text.Join | tools/internet_tool.py:82 | `sep.join(parts)`: the parts with the separator between neighbours |
| Text.Strip | tools/internet_tool.py:78 | `strip()`: the result has no leading or trailing whitespace and is no longer than the input |
| Text.StripIsSlice | tools/internet_tool.py:78 | `strip()` keeps one contiguous slice of its input |
| Text.StripStartDrops | tools/internet_tool.py:78 | `lstrip()` drops only whitespace |
| Text.StripEndDrops | tools/internet_tool.py:78 | `rstrip()` drops only whitespace |
| Text.LinePiecesJoin | tools/internet_tool.py:78 | lines joined by newlines split back into the same lines |
| Text.LinePieces | tools/internet_tool.py:78 | `splitlines()`: at least one line, cut at every line-break character |
| Text.LinePiecesCover | tools/internet_tool.py:78 | every character that is not a line break lands in some line |
| Text.LinePiecesChars | tools/internet_tool.py:78 | every character of a line is a character of the text |
| Text.LinePiecesNoBreak | tools/internet_tool.py:78 | no line holds a line-break character |

## Left out

- The LangChain agent, its ReAct loop and prompt template, and the Gemini model (app.py:44, 79-140). They are library code; the agent is the `agent` parameter.
- Telegram and Flask I/O: `/start`, `/help`, the message handler, the home route, `run_polling`, threading, and `exit(1)` on a missing bot token. These are platform plumbing and concurrency.
- Logging and `.env` loading. API keys are parameters.
- The HTTP calls, DuckDuckGo `DDGS`, and BeautifulSoup parsing with script/style removal. The model starts from their decoded results or from the extracted page text. The cap on the number of search results is the search library's behaviour, so `numResults` is only passed to the `search` parameter.
- Default arguments. `num_results` defaults to 3 (tools/internet_tool.py:11) and `max_length` to 1000 (tools/internet_tool.py:47). They are the constants `InternetTool.DefaultNumResults` and `InternetTool.DefaultMaxLength`. A call that leaves the argument out is the method applied to that constant; it is not a separate member.
- Float rendering. Temperatures and other readings are the text Python prints for them; coordinates are `real`.
- JSON `null` versus a missing key. In the model both are `None`, which is faithful only for a `null` country or reading. In the source:
  - a `null` weather `sys`, `main`, `wind`, `weather` list, first `weather` element or description raises, giving the generic weather error (tools/weather_tool.py:59-68, 75, 92-94);
  - a `null` city `name` prints `None` (tools/weather_tool.py:58);
  - a `null` news `totalResults` is not `0`, so the article list follows (tools/news_tool.py:58);
  - a `null` `articles` list or article `source` raises, giving the error message with its text (tools/news_tool.py:64-66, 78-80);
  - a `null` title, source name, description or URL prints `None` (tools/news_tool.py:65-68).
  In each of these cases the model gives the default text or the empty list instead.
- The query strings of the weather calls. The geocoding oracle gets only the location, and the current-weather oracle only the coordinates. The API key, `limit=1` (tools/weather_tool.py:19) and `units=metric&lang=es` (tools/weather_tool.py:51) are not modelled. The `°C` and `m/s` suffixes of the report are right only because the source asks for metric units.
- Concurrency between the Flask `/reset` route and the Telegram handler. `/reset` rebinds `user_memories` to a new dictionary (app.py:258-259). If this happens while the agent runs, the append at app.py:199-200 lands in a history that is no longer in the store. The model runs each operation atomically on one store.
- The unused `weather_main` field of the weather reply.
- The Markdown rendering of the `_…_` emphasis by Telegram.
- The web-search and page-content tools are modelled, but the bot's catalog holds only the weather and news tools (app.py:65-68), as the model's `Tools` does.
- WeatherTool.Capitalize: maps only ASCII letters. Python's `str.capitalize` also title-cases and lower-cases non-ASCII letters.
- Text.LinePieces: Python's `splitlines` does not yield an empty last line after a trailing break, and treats `\r\n` as one break. The model breaks at every line-break character. This only adds empty pieces, which the page cleanup drops.
- App.ParseHistory: the history text is only read back for messages without line breaks. A message with a newline gives an ambiguous history text in the source as well.

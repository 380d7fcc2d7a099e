# Poemgen poem server, modelled in Dafny

This project models the core of `mcp_poem_server.py`, a tool server with two tools:

- `validate(token)` checks a caller's token against the configured `AUTH_TOKEN` (default `"dev-token"`). It then returns the configured `MY_NUMBER`.
- `generate_poem(theme, style, length, tone)` writes one row per call into a usage table. It then returns either the text an external language model produced (stripped of surrounding whitespace) or a poem from the built-in template renderer `fallback_poem`.

Files:

- `Wrappers.dfy`: `Option`, which stands for Python's `None` or a present value.
- `PyStr.dfy`: the two Python string builtins the server calls, `"\n".join(lines)` and `str.strip()`. It also holds `Split`, which behaves like `str.split` with a one-character separator. The server never calls `Split`: it is the reference inverse of `Join`, used to state the line round trip. Lemmas connect each function to its partner: join and split round trips in both directions, and a characterisation of strip.
- `PoemServer.dfy`: `Validate`, the template renderer (`HaikuLines`, `TemplateLines`, `FallbackLines`, `FallbackPoem`), and a `Server` class. The class holds the usage log as a sequence of `Call` rows. Its `GeneratePoem` method appends exactly one row before choosing the answer.

The renderer is modelled as a list of lines (`FallbackLines`) and a separate `Join`. Line-level facts are proved on the list. `theme` and `tone` are arbitrary text, so they may themselves contain newlines, and `NewlineInThemeBreaksSplit` proves that splitting the joined poem at newlines then does not give back its lines.

`fallback_poem` has no randomness, no tone-word bank, no line shuffling and no capitalisation of the theme. Its style match is exact and case-sensitive ("Haiku" gets the four-line template). Its only length that cuts lines is exactly "short". The theme and tone are spliced in verbatim.

## Model

| member | source | states |
|---|---|---|
| PoemServer.AuthToken | mcp_poem_server.py:11 | the configured token is the environment's value when one is set, and "dev-token" when it is absent |
| PoemServer.Validate | mcp_poem_server.py:49-55 | a wrong token yields InvalidToken whatever the number; a right token with the number absent or empty yields NumberNotSet; otherwise Ok carries the configured number unchanged (each case as an if-and-only-if) |
| PoemServer.HaikuLines | mcp_poem_server.py:84 | the haiku has three lines, the theme begins the first, and the other two are fixed |
| PoemServer.TemplateLines | mcp_poem_server.py:85-92 | the template has four lines; lines 1-3 splice tone and theme verbatim and do not depend on the funny branch; line 4 carries the cheese suffix exactly when the tone is "funny" |
| PoemServer.FallbackLines | mcp_poem_server.py:83-93 | three lines for the haiku or for length "short", four otherwise; for every style other than "haiku" the lines are a leading run of the template, in template order |
| PoemServer.FallbackPoem | mcp_poem_server.py:82-93 | the rendered text, including the literal haiku text of line 84, is exactly the chosen lines joined by newlines |
| PoemServer.HaikuJoined | mcp_poem_server.py:84 | the haiku text, theme followed by the fixed newline-broken literal, equals its three lines joined by "\n" |
| PoemServer.HaikuIgnoresLengthAndTone | mcp_poem_server.py:83-84 | with style "haiku" the poem is the theme followed by " at sunrise\nsoft winds drift across the sky\nhope wakes quietly", whatever length and tone are |
| PoemServer.NonHaikuStylesAgree | mcp_poem_server.py:83 | every style other than exactly "haiku" ("sonnet", unknown strings, "Haiku") renders the same lines as "free_verse" |
| PoemServer.ShortLines | mcp_poem_server.py:91-93 | a short non-haiku poem is exactly the first three template lines, so the funny suffix never reaches it |
| PoemServer.FullLines | mcp_poem_server.py:85-93 | for any length other than "short", all four lines come in template order, and only line 4 depends on the tone being "funny" |
| PoemServer.ShortPoemIsPrefix | mcp_poem_server.py:93 | the short poem's text is a prefix of the poem's text for any other length, for the same theme, style and tone |
| PoemServer.PoemLinesRecoverable | mcp_poem_server.py:93 | when neither theme nor tone holds a newline, splitting the poem at newlines gives back exactly its lines |
| PoemServer.NewlineInThemeBreaksSplit | mcp_poem_server.py:84-88 | when the theme holds a newline, splitting the poem at newlines does not give back its lines |
| PoemServer.TemplateHasNoNewline | mcp_poem_server.py:85-92 | the template lines contain no newline of their own beyond those in theme and tone |
| PoemServer.Server.constructor | mcp_poem_server.py:25-36 | opening the store keeps the rows it already holds |
| PoemServer.Server.RecordCall | mcp_poem_server.py:38-43 | record_call appends exactly one row (theme, style, length, tone) and changes no earlier row |
| PoemServer.Server.GeneratePoem | mcp_poem_server.py:65-80 | one row for the call is appended first and nothing else in the log changes; a successful external reply is returned stripped; otherwise the result is fallback_poem of the unchanged arguments |
| PyStr.Join | mcp_poem_server.py:93 | the joined text's length is the lines' total length plus one separator between each pair, and it begins with the first line |
| PyStr.Split | mcp_poem_server.py:93 | splitting always gives at least one piece, and no piece contains the separator |
| PyStr.JoinSplit | mcp_poem_server.py:93 | joining the pieces of a split with the separator gives back the original text |
| PyStr.SplitJoin | mcp_poem_server.py:93 | splitting joined lines gives back the lines when none of them holds the separator |
| PyStr.JoinPrefix | mcp_poem_server.py:93 | joining the first k lines gives a prefix of joining all of them |
| PyStr.TrimStart | mcp_poem_server.py:76 | the result is a suffix of the input that does not start with whitespace, and all that was dropped is whitespace |
| PyStr.TrimEnd | mcp_poem_server.py:76 | the result is a prefix of the input that does not end with whitespace, and all that was dropped is whitespace |
| PyStr.Strip | mcp_poem_server.py:76 | a non-empty stripped text neither starts nor ends with whitespace |
| PyStr.StripSplitsText | mcp_poem_server.py:76 | the input is leading whitespace, then the stripped text, then trailing whitespace |
| PyStr.StripUnique | mcp_poem_server.py:76 | strip removes exactly the surrounding whitespace: any whitespace around text without whitespace at its ends strips to that text |
| PyStr.StripIdempotent | mcp_poem_server.py:76 | stripping twice is the same as stripping once |

## Left out

- The SQLite connection, table creation, `INSERT` and `commit` (lines 24-36, 38-43) are I/O. The table is a sequence field that `RecordCall` appends to. A failing write, which would abort `generate_poem` before any answer, is not modelled.
- The random `uuid4` id and the `time.time()` timestamp of each row (line 41) are left out of `Call`, so the uniqueness of ids and the order of timestamps are not stated.
- The OpenAI request (lines 15-21, 67-78) is left out: the prompt text, the model name, the token budget and temperature, and the swallowed exceptions. `GeneratePoem` takes the outcome as a parameter. `None` means the key is unset, the library is missing, or the call raised. `Some(text)` means it returned `text`, and the result is `Strip(text)` even when that is empty.
- Reading `AUTH_TOKEN`, `MY_NUMBER` and `OPENAI_API_KEY` from the environment (lines 11-13) is left out; their values are parameters. Only the "dev-token" default is kept, in `AuthToken`.
- The exceptions raised by `validate` (lines 52, 54) are modelled as the `InvalidToken` and `NumberNotSet` results; their message texts are not kept.
- FastMCP tool registration, `async`, the `Context` argument, the parameter defaults that the framework fills in, the FastAPI app and the uvicorn entry point (lines 46-48, 57-64, 95-100) are transport plumbing.
- PyStr.Split: models `str.split` only for a one-character separator, which is all the newline-joined poem needs.
- PyStr.IsSpace: lists the characters Python's `str.isspace()` accepts; nothing else about Unicode is modelled.

# AI meeting summarizer: the transcript chunker, in Dafny

This project models the one algorithmic part of the meeting summarizer's
`cli.py`: `summarize_transcript`, which prepends the fixed instruction
"Por favor, resuma o seguinte texto:\n\n" to a transcript, encodes the text
into tokens, cuts the tokens into chunks of 15000 with a `while tokens:` loop,
decodes each chunk back to text, summarises every chunk with one chat request
and joins the summaries with `"\n"`. It also models the command-line dispatch
of `__main__` (argument count, then the `OPEN_API_KEY` credential, then the
action) and the minutes/seconds split of the recording timer.

The tokenizer and the chat request are foreign code. They appear as
function-typed parameters `encode: string -> seq<Token>`,
`decode: seq<Token> -> string` and `summarise: string -> string`, with the
token type a type parameter. As arrow-typed parameters they are total
functions. Beyond that nothing is assumed of them, except in the lemmas that
say so (an encoder that maps a non-empty string to a non-empty token
sequence). Decoding a window is never assumed to give back a piece of the
text, because a window boundary can split a multi-byte character; the
round trip is stated at the token level.

Files:

- `chunking.dfy` (module `Chunking`): the window specification `Windows`
  (window size as a parameter) and its laws: token round trip, window sizes,
  window count, the position of each window, and the one- and three-window cases.
- `summarizer.dfy` (module `Summarizer`): the chunking loop as a method proved
  against `Windows` at size 15000; Python's `"\n".join` and its inverse
  `str.split("\n")`; the whole `summarize_transcript` and the laws of the
  assembled summary.
- `cli.dfy` (module `Cli`): the `__main__` dispatch as a function to an
  `Outcome`, its exit statuses, and `divmod(int(elapsed), 60)`.

A text of at most 15000 tokens becomes the single chunk
`decode(encode(prompt + transcript))`. It includes the prompt, and it is the
text itself only if the tokenizer round-trips (`Summarizer.OneChunkSummary`).

## Model

| member | source | states |
|---|---|---|
| `Chunking.Windows` | cli.py:107-111 | the cuts of the loop: the first 15000 tokens (size in general), or all that remain, then the cuts of the rest; no tokens give no windows, and there are never more windows than tokens |
| `Chunking.FlattenWindows` | cli.py:106-111 | the token slices of all chunks, concatenated in order, are exactly the token sequence they were cut from |
| `Chunking.WindowSizes` | cli.py:107-111 | every chunk holds 1 to 15000 tokens (size in general), and every chunk but the last holds exactly that many |
| `Chunking.WindowCountBounds` | cli.py:107-111 | with k chunks for n tokens, (k - 1) * size < n <= k * size, and k is 0 exactly when n is 0 |
| `Chunking.WindowCount` | cli.py:107-111 | the number of chunks is ceil(n / size): none for no tokens, one for 1 to size tokens |
| `Chunking.WindowAt` | cli.py:107-111 | chunk i is tokens [i * size, min((i + 1) * size, n)), so chunks keep source order and are never reordered |
| `Chunking.ThreeWindows` | cli.py:107-111 | 2 * size + k tokens with 0 < k < size give exactly three chunks, of size, size and k tokens |
| `Chunking.SingleWindow` | cli.py:107-111 | 1 to size tokens give one chunk holding all of them |
| `Summarizer.Tokens` | cli.py:103-106 | the tokens the loop starts from, encode(prompt + transcript); never empty for an encoder that keeps non-empty strings non-empty, since the prompt is not empty |
| `Summarizer.Chunks` | cli.py:102-111 | the chunk list the loop builds, the decode of each window in order: no chunks exactly when there are no tokens, never more chunks than tokens |
| `Summarizer.ChunkTranscript` | cli.py:102-111 | the loop ends, since the remaining tokens shrink on every pass; its chunks are the decoded windows of encode(prompt + transcript) in order, ceil(n / 15000) of them, chunk i decoding tokens [i * 15000, min((i + 1) * 15000, n)) |
| `Summarizer.ChunkLayout` | cli.py:103-111 | the same count and position laws, stated of the chunk specification for any transcript |
| `Summarizer.SummariesOf` | cli.py:113 | the list comprehension: one summary per chunk, summary i being summarise(chunk i) |
| `Summarizer.Join` | cli.py:113 | Python's "\n".join: the first part opens the result, the last part closes it, and two or more parts put a newline in it |
| `Summarizer.Assemble` | cli.py:113 | the value of line 113 for a given chunk list: "" for none, the lone summary for one, opened by the first chunk's summary and closed by the last, with one newline added per chunk after the first |
| `Summarizer.Summary` | cli.py:102-115 | the value summarize_transcript returns: "" for no chunks, the one chunk's summary unchanged for one chunk, and always opened by the first chunk's summary |
| `Summarizer.SummarizeTranscript` | cli.py:102-115 | the returned summary is the join of one summarise call per chunk, in chunk order |
| `Summarizer.JoinSeparators` | cli.py:113 | joining n >= 1 summaries adds exactly n - 1 newline separators to the newlines they already hold |
| `Summarizer.SplitJoin` | cli.py:113 | splitting the join on "\n" gives back the summaries, in order, when none contains a newline |
| `Summarizer.SummaryLines` | cli.py:113 | the summary has one line per chunk, and line i is the summary of chunk i alone, when no chunk summary contains a newline (`Summarizer.SummaryLinesInOrder` states the general case) |
| `Summarizer.SplitNewline` | cli.py:113 | splitting on "\n" a text with a newline in it gives the pieces before that newline, then the pieces after it, for all texts |
| `Summarizer.SplitJoinLines` | cli.py:113 | for any non-empty list of summaries, whatever they contain, the lines of their "\n"-join are each summary's lines in turn |
| `Summarizer.SummaryLinesInOrder` | cli.py:113 | for every non-empty chunk list, the lines of the summary are the lines of each chunk's summary, chunk by chunk in chunk order, multi-line summaries included |
| `Summarizer.AtLeastOneChunk` | cli.py:103-107 | because the prompt is prefixed, every transcript the encoder accepts (even the empty one) gives at least one chunk, for an encoder that keeps non-empty strings non-empty |
| `Summarizer.OneChunkSummary` | cli.py:102-113 | a text of at most 15000 tokens is one chunk, the decode of all its tokens, and the summary is that chunk's summary unchanged |
| `Cli.Dispatch` | cli.py:117-162 | a wrong argument count gives usage whatever the environment; with three arguments a missing OPEN_API_KEY gives the credential error whatever the action; then "record" and "summarize" run on argv[2] and every other action is invalid |
| `Cli.EndOf` | cli.py:30-162 | how the process ends for an outcome and the way its action ends: always an exit status of 0 or 1 or death by SIGINT; exit 1 exactly for the three refusals (lines 120, 126, 162) or an action that raised; death by SIGINT exactly for an interrupted summary run (133-159), which installs no handler; an interrupted recording exits with 0 through its handler (30-38) |
| `Cli.ExitStatusLaws` | cli.py:117-162 | the process exits with 1 exactly when the count is not 3, the credential is missing, the action is neither "record" nor "summarize", or the action raised; it dies by SIGINT exactly when a summary run is interrupted; otherwise it exits with 0 |
| `Cli.BuildsClient` | cli.py:128 | the client is built exactly for the outcomes that passed the argument-count and credential checks, whatever the action |
| `Cli.UsageBeforeCredential` | cli.py:118-126 | with the wrong argument count, two different environments give the same usage outcome |
| `Cli.NoClientWithoutCredential` | cli.py:118-128 | the API client is built exactly when the argument count is 3 and the credential is present, so no request is possible without it |
| `Cli.Clock` | cli.py:22 | minutes * 60 + seconds is the elapsed whole seconds, with seconds in [0, 60) and minutes not negative for non-negative time |
| `Cli.ClockUnique` | cli.py:22 | that split is the only one with seconds in [0, 60) |
| `Cli.ClockTick` | cli.py:20-25 | one more second advances the seconds by one, or rolls 59 over to the next minute with seconds 0 |

## Left out

- `record_meeting`, `print_ffmpeg_errors` and the interrupt handler (cli.py:27-72): an ffmpeg subprocess, a timer thread, and a global flag shared across threads. Two parts of them are modelled: the exit status 0 of the handler's `sys.exit(0)`, which `Cli.EndOf` gives for an interrupted recording, and the minutes/seconds arithmetic of the timer (`Cli.Clock`).
- `transcribe_audio` (cli.py:74-87): device selection and Whisper model inference.
- The chat request inside `generate_summary` (cli.py:91-100): the model name, the system message, the wrapping of each chunk as "<instruction>: <chunk>", the temperature 0.2 and the `strip()` of the reply are all inside the opaque `summarise` parameter.
- A failing request aborts the whole Python run (no retry, no partial result). `summarise` is a total function here, so that failure path is not modelled inside the summarizer; `Cli.ExitStatusLaws` covers only its effect on how the process ends, as an action that raised.
- The internals of the cl100k_base tokenizer. `encode` and `decode` are total parameters about which nothing else is assumed, except in the lemmas that say so (`Summarizer.AtLeastOneChunk` and `Summarizer.OneChunkSummary` require an encoder that keeps non-empty strings non-empty).
- `Summarizer.ChunkTranscript`: the encoder is taken as total. tiktoken's `encode` raises `ValueError` on text that contains a special-token string such as `<|endoftext|>`, and the Python run then stops at cli.py:106 before any chunk is cut; that path is not modelled.
- `Summarizer.SummarizeTranscript`: for the same reason, it says nothing about a transcript holding a special-token string, on which the source raises instead of summarising.
- `Summarizer.AtLeastOneChunk`: "every transcript" means every transcript the encoder accepts; one holding a special-token string gives no chunk, because the source raises first.
- `Cli.ExitStatusLaws`: how the action ends (`Finished`, `Raised` for an uncaught exception other than KeyboardInterrupt, `Interrupted` for Ctrl-C) is an input; which inputs make the action raise is not modelled. A Ctrl-C before the recording handler is installed, or during the refusal paths, is not modelled either (it would end the process by SIGINT). Death by SIGINT is a signal, not an exit status; the shell reports it as 130 on POSIX.
- `Cli.EndOf`: a recording whose ffmpeg process exits by itself leaves the timer thread running, and the process then waits until it is interrupted; `Finished` for a recording is therefore taken to mean the end through the interrupt handler, with status 0.
- File output, the timestamp from the wall clock, `os.makedirs` and console printing (cli.py:139-159), including the usage and error messages and the `MM:SS` rendering of the timer.
- `load_dotenv`: the environment is taken as a map already holding whatever the `.env` file adds.
- The floating-point elapsed time (cli.py:19-21): `Cli.Clock` starts from the whole seconds that `int(...)` produces.

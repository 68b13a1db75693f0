# OLS language server core, modelled in Dafny

This project models the sequential core of a small Language Server Protocol server:

- **Framing** (`main.cpp`, modules `Framing` and `FramingProperties` in `framing.dfy`).
  `readMessage` reads header lines from standard input. It removes one trailing `\r` from
  each line and stops at the first empty line or at the end of input. It takes the value of
  `Content-Length:` headers through `std::stoi`, rejects a missing or non-positive length,
  and then reads exactly that many body characters. `sendMessage` writes
  `Content-Length: <N>\r\n\r\n<body>`. The input stream is a `string` in which each `char`
  stands for one byte, so Content-Length counts bytes, as `body.size()` does. A read gives a
  `Reading`: the body or one of three errors, plus the input left unread. The C++ function
  returns `""` for every error. `Returned` maps a `Reading` to that string, and a successful
  body is never empty, so `""` always means an error.
- **Message handling** (`main.go`, module `Handler` in `handler.dfy`, with Go's
  `strings.Split`/`strings.Join` in `lines.dfy`). `handleMessage` switches on the method
  name:
  - `initialize` answers with the request id, position encoding `"utf-16"`, and the
    semantic-token types and modifiers the client declared.
  - `textDocument/didOpen` turns every error capture of the syntax tree into a diagnostic
    and publishes them with the document's uri and version.
  - `textDocument/didChange` splices the first content change's text over one line of a
    text that is always the freshly initialised `""`.
  - Everything else sends nothing.
- `digits.dfy` holds decimal text. It covers `operator<<` on a `size_t` and Go's `%d`, and
  the value a run of digits denotes.

Each imperative routine is a method proved against a specification function:
- `ReadHeaders`, `ReadBody` and `ReadMessage` against `HeaderScan`, `TakeBody` and `Read`.
- `GetLine` against `LineText`/`LineRest`.
- `BuildDiagnostics` against `DiagnosticsOf`.
- `SpliceLine` against `Split`/`Join`.

Lemmas state what the source promises about those functions.

`readMessage` is also described without its loop. When no value is rejected, `HeaderLines`
gives the header lines it sees and `AfterHeader` the input after the empty line. `ReadByLines`
proves the loop equivalent to that description. A value `stoi` rejects anywhere fails the read. Otherwise
the last Content-Length value decides, and the body is that many characters after the
empty line. A rejected value ends the read at once: the input after that header line is left
unread (`AfterRejected`).

The code keeps nothing between messages: didChange edits `""`, not the opened text. There is
no session state machine and there are no error replies. Diagnostics are shifted by one row and one
column. `semanticTokens/full` and `shutdown` get no response.

## Model

| member | source | states |
|---|---|---|
| `Digits.Decimal` | main.cpp:73 | the length written in a frame is digits only, never empty, with a leading `0` only for zero |
| `Digits.ValueOfDecimal` | main.cpp:73 | the decimal text of n denotes n |
| `Framing.StoI` | main.cpp:41-48 | `stoi` gives a value only inside the 32-bit `int` range, and fails when no digit follows the optional whitespace and sign |
| `Framing.SkipBlanks` | main.cpp:36-39 | only leading spaces and tabs are cut; when the text holds any other character, what is left starts with one; when it holds none (`npos`), the text is kept as it is |
| `Framing.BlanksSkippedByStoI` | main.cpp:34-42 | skipping spaces and tabs after the colon gives `stoi` the same value as not skipping them |
| `Framing.LineText` | main.cpp:23 | the line `getline` extracts is a prefix of the input without a `'\n'`, and a `'\n'` follows it unless the input ended |
| `Framing.LineRest` | main.cpp:23 | after `getline` the input is the line, the `'\n'` it consumed and the rest; at the end of input nothing is left |
| `Framing.StripCR` | main.cpp:25-27 | at most one character is removed, and only a trailing `'\r'` |
| `Framing.Find` | main.cpp:33 | `std::string::find` gives an index where the pattern occurs |
| `Framing.FindFirst` | main.cpp:33 | `find` gives the first index where the pattern occurs, and `npos` exactly when it occurs nowhere |
| `Framing.IsLengthLine` | main.cpp:33 | `line.find("Content-Length:") == 0` holds exactly when the line starts with `Content-Length:` |
| `Framing.LengthValue` | main.cpp:33-42 | the value of a Content-Length line is what `stoi` gives for all the text after the colon, within the `int` range |
| `Framing.GetLine` | main.cpp:23 | `getline` returns the characters up to the next `'\n'` and resumes after it, or after the end of input |
| `Framing.Classify` | main.cpp:33-48 | a header line is another header exactly when it is no Content-Length line; a Content-Length line is rejected exactly when `stoi` throws on the text after the colon, and otherwise carries the value `stoi` gives |
| `Framing.HeaderScan` | main.cpp:23-50 | the header loop only consumes input: what it leaves unread is a suffix of what it was given |
| `Framing.ReadHeaders` | main.cpp:20-50 | the `getline` loop computes `HeaderScan` of the whole input from length -1 |
| `Framing.TakeBody` | main.cpp:58-67 | a body read succeeds exactly when n characters remain, and then returns exactly n characters followed by the unread rest |
| `Framing.ReadBody` | main.cpp:58-67 | filling the pre-sized buffer from the stream computes `TakeBody` |
| `Framing.Read` | main.cpp:19-68 | a successful body is never empty, and the body and the unread input together end the input |
| `Framing.ReadMessage` | main.cpp:19-68 | `readMessage` computes `Read`: header loop, length check, then the body |
| `Framing.Returned` | main.cpp:47-67 | `readMessage` returns `""` when it fails or the body is empty, and otherwise the body |
| `Framing.Frame` | main.cpp:70-76 | a frame starts with the `Content-Length:` header name and ends with the body |
| `FramingProperties.HeaderLines` | main.cpp:25-31 | each header line `readMessage` inspects is non-empty after the trailing `\r` is removed |
| `FramingProperties.ScanByLines` | main.cpp:23-50 | the loop stops at a rejected value exactly when some header line holds one; otherwise it ends with the last Content-Length value, just after the empty line |
| `FramingProperties.ScanStopsAfterRejected` | main.cpp:41-48 | when the header loop stops at a value `stoi` rejects, the input left is what follows that header line |
| `FramingProperties.ReadByLines` | main.cpp:19-68 | the outcome of `readMessage` given its header lines: invalid value, missing or non-positive length, incomplete body, or the characters after the empty line; and the input it leaves in each case, including right after the first rejected Content-Length line |
| `FramingProperties.RejectedValueStopsRead` | main.cpp:41-48 | a Content-Length line whose value `stoi` rejects fails the read with the line after it left unread |
| `FramingProperties.EmptyReturnMeansError` | main.cpp:19-68 | `readMessage` returns `""` exactly when it fails |
| `FramingProperties.CrLfLine` | main.cpp:23-27 | a line ended by CRLF is read as itself and the input after it is left |
| `FramingProperties.LengthLineOnlyAtStart` | main.cpp:33 | a line where `find` gives any position other than 0, or `npos`, is not a Content-Length line; the name is matched case-sensitively and not after leading text |
| `FramingProperties.PrefixedNameIgnored` | main.cpp:33 | in an `X-Content-Length:` header `find` gives 2, so it is not a Content-Length line |
| `FramingProperties.MissingLengthRejected` | main.cpp:52-56 | with no `Content-Length:` line before the empty line or the end of input, the read fails |
| `FramingProperties.LastLengthWins` | main.cpp:33-42 | when several Content-Length lines appear, the last one decides |
| `FramingProperties.StoIDecimal` | main.cpp:41-42 | `stoi` reads back the decimal text of every length up to `INT_MAX` |
| `FramingProperties.HeaderBlockLines` | main.cpp:25-31 | CRLF-terminated header lines read back as themselves; an empty line ends the block and everything after it is left unread |
| `FramingProperties.LengthLineReadsBack` | main.cpp:33-42 | the header line `sendMessage` writes is a Content-Length line whose value is the body length |
| `FramingProperties.FrameParts` | main.cpp:73 | a frame is its Content-Length line and an empty line, each ended by CRLF, then the body |
| `FramingProperties.LengthLineThenBody` | main.cpp:23-56 | one Content-Length line with a positive value and then an empty line end the header loop with that value, just before the body |
| `FramingProperties.ReadFrame` | main.cpp:19-76 | round trip: reading what `sendMessage` writes for a non-empty body, followed by anything, gives that body and leaves exactly what followed |
| `FramingProperties.BackToBackFrames` | main.cpp:19-76 | two frames in one input are read one after the other, in order |
| `FramingProperties.PartialBodyRejected` | main.cpp:58-65 | a frame cut short inside its body fails with an incomplete body and uses up the input |
| `Lines.Split` | main.go:135 | `strings.Split(s, "\n")` has one more piece than s has newlines, and no piece holds a newline |
| `Lines.Join` | main.go:138 | `strings.Join(lines, "\n")` starts with the first line, and puts exactly one newline between each two newline-free lines |
| `Lines.JoinSplit` | main.go:135-138 | joining the pieces of a split gives back the text |
| `Lines.SplitJoin` | main.go:135-138 | splitting lines joined with newlines gives back the lines, when no line holds a newline |
| `Lines.ReplaceLine` | main.go:136-138 | overwriting one line with newline-free text and joining changes that line and no other |
| `Handler.ToDiagnostic` | main.go:112-116 | each start and end row and column of the diagnostic is one less than the capture's; it is an error; its message starts with `Error on line ` |
| `Handler.BuildDiagnostics` | main.go:103-120 | the nested loops compute `DiagnosticsOf` the matches; the inner loop keeps the diagnostics of the earlier matches followed by one per capture of the current match so far |
| `Handler.DiagnosticCount` | main.go:103-120 | there are as many diagnostics as captures across all matches |
| `Handler.DiagnosticAt` | main.go:105-120 | capture j of match i becomes the diagnostic after those of all earlier captures, with each start and end row and column less one, severity 1, and message `Error on line <start row>` |
| `Handler.AllErrors` | main.go:109-110 | every diagnostic has severity 1 (Error) |
| `Handler.MessageNamesUnshiftedRow` | main.go:113-115 | the row a message names is one more than the line its range starts on |
| `Handler.ZeroRowOrColumnIsMinusOne` | main.go:113 | a start or end row or column 0 of an error node becomes -1 in its diagnostic |
| `Handler.SpliceLine` | main.go:135-138 | the didChange splice overwrites the line at the given index; with newline-free text the lines afterwards are the old lines with that one replaced, so the line count is unchanged |
| `Handler.SpliceOfEmpty` | main.go:35 | the text being spliced is `""`: it has only line 0, and splicing it gives the change's text |
| `Handler.KindOf` | main.go:43-155 | a method name selects the case whose label it is, and no case when it is no label |
| `Handler.KindOfMethodName` | main.go:43-155 | each case label selects its own case |
| `Handler.HandleMessage` | main.go:26-157 | `initialize` and `textDocument/didOpen` each send exactly one message, everything else sends nothing; the `initialize` response carries the request id and `"utf-16"`; the publish carries the document's uri, version and the diagnostics of its text; didChange leaves the first change's text as the document |

## Left out

- The TCP listener, the accept loop and the goroutine per connection (main.go:185-212): network I/O and concurrency.
- The `ols/rpc` package is not part of this model. This covers `rpc.Split`, `rpc.DecodeMessage` and `rpc.EncodeMessage` (main.go:19, 27, 162-168). `HandleMessage` takes the decoded method name and fields. `Outgoing` stands for the messages before encoding.
- The `ols/lsp` types and constructors are not part of this model. They are plain records here: `Message`, `Params`, `Outgoing`, `Diagnostic`. The JSON shape of an empty diagnostics list is decided by that package.
- Tree-sitter parser, language, query and cursor construction (main.go:39-101): a foreign library. `HandleMessage` takes `errorMatches`, the query matches for a text, as a parameter. A failure to build the query is not modelled.
- JSON decoding with `encoding/json` and nlohmann::json, and `msg.dump()`: library calls. A field that fails to decode keeps Go's zero value in `Params`. `Frame` takes the serialised body.
- The log file and every log line (main.go:175-183; main.cpp:11-17): side-channel output. The `fileContents` result of `HandleMessage` is the text the handler only logs.
- The `main` loop of main.cpp (main.cpp:78-104): an endless I/O loop over JSON.
- Stream states other than end of input, such as read errors or a blocking stream, and `std::cout.flush()`.
- Any session state, document store or shutdown handling: the code has none.
- HandleMessage: the inputs on which the Go code panics are excluded by the precondition `!Panics(message)` rather than modelled as a crash. These are a nil request id or a nil client version on `initialize`. On didChange they are an empty content-change list, or a start line other than 0 (the only line of `""`).
- SpliceLine: the requirement `0 <= line < |Split(text)|` is Go's slice bounds check, which panics otherwise.
- ReadFrame: bodies longer than `INT_MAX` (2147483647) characters are excluded. For them `sendMessage` writes a length that `stoi` rejects with `out_of_range`, so `readMessage` fails.
- StoI: the C locale is assumed for `isspace`.
- The `version` local set by didChange (main.go:133) is never read, so it is not returned.
- ToDiagnostic: the `- 1` is computed on `int` here, so row or column 0 gives -1. In the Go code the row and column of a tree-sitter point are `uint`, and Go converts no type implicitly, so `Row - 1` is a `uint` subtraction and the `lsp.Position` field must have that unsigned type. There row or column 0 wraps around to the largest `uint` value instead of -1. The shift itself is kept, not corrected.

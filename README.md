# Geoid elevation conversion: stream buffer and conversion loop

This project models the two pieces of logic in the NN2000-to-ETRS-89 elevation converter, and proves properties about them.

- `Utilities::ReadOnlyStreamBuffer` is a read-only, seekable stream over a borrowed block of bytes. It is modelled in `stream_buffer.dfy` (module `StreamBuffer`) as the class `ReadOnlyStreamBuffer`:
  - the class borrows an `array<char>`, keeps a `const size` and has one mutable field, the cursor `pos`;
  - `XsGetN` copies bytes into a caller's array in a loop;
  - `SeekOff` and `SeekPos` update the cursor with the source's branches;
  - each method is proved against a pure function: `ReadCount`, `SeekOffResult` (a clamp into `[0, size]`) and `SeekPosResult`;
  - `Run` and `Step` replay a sequence of operations on the cursor, and the lemmas about them state the bounds invariant and read exhaustion.
- `convert_elevations` is the fail-fast, line-by-line conversion loop. It is modelled in `elevations.dfy` (module `Elevations`) as the method `ConvertElevations`:
  - the method walks the input text one line at a time, numbering lines from 1;
  - it appends one output record per converted line, or returns the error that stops the run;
  - its postcondition ties it to the recursive specification `ConvertText`, which is `Convert` over the lines of the input.
  - `text_lines.dfy` (module `TextLines`) models how `std::getline` splits a text into lines.
  - `wrappers.dfy` holds `Option` and `Result`.

Collaborators the conversion cannot see are parameters:
- The geoid grid is a `Grid` value holding two functions. `modelToGrid` stands for `model_pos_to_grid_pos` over the grid view. `elevationAt` stands for `get_elevation`, which yields NaN where the grid has no data.
- Number reading and writing are a `NumberText` value. `read` is `operator>>` for `double` after white space has been skipped: it takes the number at the front of the text and returns the unread rest. `write` is `operator<<` for `double`.
- Doubles are `Double`: a finite value, an infinity or NaN. `Add` is IEEE addition on those classes.

## Model

| member | source | states |
|---|---|---|
| StreamBuffer.ReadOnlyStreamBuffer.constructor | src/ReadOnlyStreamBuffer.hpp:16-19 | The stream borrows the given block without copying it. The cursor starts at 0, the length is the given size, and the unread bytes are the first `size` bytes of the block. |
| StreamBuffer.ReadCount | src/ReadOnlyStreamBuffer.hpp:24 | A bulk read delivers `min(count, size - pos)` bytes. That is at most what was asked for and at most what is left, equal to one of the two, and never negative for a non-negative count. |
| StreamBuffer.ReadOnlyStreamBuffer.XsGetN | src/ReadOnlyStreamBuffer.hpp:22-28 | Returns `ReadCount(pos, size, count)`. The destination's first n bytes are the first n unread bytes, its other bytes are unchanged, and the cursor advances by n. The unread bytes lose exactly their first n, the block is not altered and the stream stays valid. |
| StreamBuffer.SeekOffResult | src/ReadOnlyStreamBuffer.hpp:30-60 | States the relative seek branch by branch. From `cur` the cursor goes to `size` if `off > size - pos`, to 0 if `pos + off < 0`, and to `pos + off` otherwise. From `end` it goes to `size` if `off > 0`, to 0 if `off < -size`, and to `size + off` otherwise. From `beg` it goes to 0, `size` or `off`. Any other direction leaves it unchanged. A cursor in `[0, size]` stays there. |
| StreamBuffer.ReadOnlyStreamBuffer.SeekOff | src/ReadOnlyStreamBuffer.hpp:30-60 | The source's branches move the cursor to `SeekOffResult(old pos, size, off, dir)`. The method returns the new cursor and the stream stays valid. |
| StreamBuffer.SeekPosResult | src/ReadOnlyStreamBuffer.hpp:64 | The absolute seek target is `min(p, size)`. It is never above `size`, equals `p` when `p <= size`, and is non-negative only when `p` is. |
| StreamBuffer.ReadOnlyStreamBuffer.SeekPos | src/ReadOnlyStreamBuffer.hpp:62-66 | Sets the cursor to `SeekPosResult(p, size)` and returns it. The stream stays valid when `p >= 0`. |
| StreamBuffer.ClampedSeekPos | src/ReadOnlyStreamBuffer.hpp:62-66 | Corrected absolute seek, clamped into `[0, size]`. It agrees with the source's seek for every `p >= 0` and gives 0 for negative `p`. |
| StreamBuffer.SeekPosNegativeEscapes | src/ReadOnlyStreamBuffer.hpp:64 | As written, `seekpos(-1)` leaves the cursor at -1. The corrected seek leaves it at 0. |
| StreamBuffer.ReadFromNegativeCursor | src/ReadOnlyStreamBuffer.hpp:24-25 | From the cursor -1, a read of at least one byte delivers `min(count, size + 1)` bytes, at least one. So the copy starts one byte before the block. |
| StreamBuffer.SeekOffAsWritten64 | src/ReadOnlyStreamBuffer.hpp:30-60 | The source's relative seek in 64-bit arithmetic, with `-off` as two's-complement negation. The cursor never goes above `size`. It stays non-negative except possibly for the smallest offset from `cur` or `end`, and an unknown direction leaves it unchanged. |
| StreamBuffer.SeekOff64AgreesWithClamp | src/ReadOnlyStreamBuffer.hpp:30-60 | For every 64-bit offset except the smallest, the source's 64-bit branches compute exactly the clamped seek `SeekOffResult`. |
| StreamBuffer.SeekOff64MinOffsetEscapes | src/ReadOnlyStreamBuffer.hpp:32-49 | With offset -2^63, `-off` wraps to -2^63. A seek from `cur` or `end` then leaves the cursor negative, where the clamp gives 0. |
| StreamBuffer.Step | src/ReadOnlyStreamBuffer.hpp:22-66 | The cursor after one read, relative seek or absolute seek. A well-formed operation keeps a cursor in `[0, size]`. A read with a non-negative count never moves the cursor back, and at the end of the block it leaves the cursor there. |
| StreamBuffer.RunAppend | src/ReadOnlyStreamBuffer.hpp:22-66 | Operations compose in order: running a sequence and then one more operation is the same as running the extended sequence. |
| StreamBuffer.RunStaysInBounds | src/ReadOnlyStreamBuffer.hpp:22-66 | Bounds invariant: from a cursor in `[0, size]`, any sequence of reads with non-negative counts, relative seeks and absolute seeks to non-negative positions keeps the cursor in `[0, size]`. |
| StreamBuffer.ReadsAtEndStayAtEnd | src/ReadOnlyStreamBuffer.hpp:24-27 | Read exhaustion: at the end of the block, every read of a non-negative count delivers 0 bytes and the cursor stays at `size`, however many reads follow. |
| TextLines.Lines | src/main.cpp:137 | The lines `std::getline` delivers hold no newline. An empty text, and only an empty text, delivers no lines. |
| TextLines.LinesHeadTail | src/main.cpp:137 | The first line delivered is the text up to its first newline. The rest are the lines of what follows that newline. |
| TextLines.JoinLines | src/main.cpp:137 | The lines delivered, each followed by a newline, give back the whole text, with a newline added unless it is empty or already ends in one. Nothing is lost or reordered. |
| TextLines.LinesOfJoin | src/main.cpp:137 | Lines that hold no newline, written one per line, are delivered back exactly. |
| Elevations.Add | src/main.cpp:146 | The sum is NaN exactly when either operand is NaN or the operands are opposite infinities. It is infinite exactly when it is not NaN and an operand is infinite, and then it is that infinite operand, sign included. Two finite values add exactly. |
| Elevations.Word | src/main.cpp:156 | One string extraction skips white space and takes the following run of non-white-space characters: the word and the unread rest together are the text with its leading white space skipped. The word has no white space. The unread rest is empty or starts with white space. Nothing is left after an empty word. |
| Elevations.ReadNumber | src/main.cpp:142 | One number extraction fails on a text of white space only. On a text that starts with a non-space character, it is the reader applied to the text itself. |
| Elevations.ParseLine | src/main.cpp:140-143 | A line of white space only does not parse. A line that parses gives as latitude the value of the first number extraction from the line. |
| Elevations.Converted | src/main.cpp:145-146 | The converted elevation is NaN exactly when the correction is NaN. It is infinite exactly when the correction is infinite, and then equals the correction. Otherwise it is the input elevation plus the correction. |
| Elevations.EchoIsFirstTwoWords | src/main.cpp:154-157 | For any reader, the echo is the line's first two tokens, each followed by one space. With one token the second is empty (two spaces follow the first), and with none the echo is two spaces. |
| Elevations.ConvertLine | src/main.cpp:140-157 | A line fails with "invalid format" exactly when the three extractions do not all succeed. It fails with "no geoid data" exactly when they succeed and the correction is NaN. Otherwise the record is the echoed first two words, the written sum of elevation and correction, and a newline. |
| Elevations.BlankLineIsInvalid | src/main.cpp:140-143 | A line of white space only, the empty line included, is an invalid-format line. |
| Elevations.WordTakesFirstToken | src/main.cpp:156 | Extracting a word yields the first white-space-delimited token and leaves exactly the remaining tokens. |
| Elevations.ReadNumberByTokens | src/main.cpp:142 | With a reader of whole tokens, a number extraction succeeds exactly when the first token parses. Its value is that token's value, and it leaves the other tokens. |
| Elevations.ParseLineByTokens | src/main.cpp:140-156 | With a reader of whole tokens, a line is well formed exactly when it has at least three tokens and the first three parse. The fields are those three values, tokens after the third are ignored, and the echoed text is the first two tokens, each followed by one space. |
| Elevations.DecimalRoundTrip | src/main.cpp:143-151 | The decimal text of a line number (`std::to_string`) reads back as that number. |
| Elevations.Message | src/main.cpp:143-151 | The invalid-format message is "Invalid input format on line " followed by the line number's digits. The no-data message is "No geoid data for point on line " followed by the digits and a period. The digits read back as the line number and start with '0' only when the number is 0, so the text is exactly what `std::to_string` writes. |
| Elevations.Convert | src/main.cpp:135-158 | A run with no error writes one record per line. A run that stops writes fewer records than there are lines, and its error cites line `first + (records written)`. |
| Elevations.ConvertText | src/main.cpp:131-158 | The run over an input text numbers its lines from 1. An empty input gives no output and no error. With no error there is one record per getline line. A stopping error cites line (records written + 1), which is one of the input's lines. |
| Elevations.ConvertFailFast | src/main.cpp:137-158 | The k-th record is the conversion of the k-th line. The run stops at the first line that does not convert, for that line's reason. It ends without error exactly when every line converts. |
| Elevations.ConvertAppend | src/main.cpp:137-158 | Output is streamed. A run over `a + b` writes what the run over `a` writes. If that run stopped, nothing of `b` is looked at; otherwise the run goes on over `b` with the line numbers following on. |
| Elevations.ValidLinesThenFailure | src/main.cpp:137-158 | N convertible lines followed by a failing one give exactly the N records, in order. The error cites line N + 1 for the failing line's reason, whatever follows. |
| Elevations.ConvertHead | src/main.cpp:137-158 | Seen from its first line, a run stops there on failure, citing that line's number. On success it writes one record and continues with the other lines and the next number. |
| Elevations.ConvertFirstLine | src/main.cpp:137-158 | The same step for a text: the first `getline` line is converted, and the run continues with the text after the first newline. |
| Elevations.TrimLeftAfterSpaces | src/main.cpp:142 | Skipping white space stops at the first character that is not white space. |
| Elevations.ReadNumberAfterSpaces | src/main.cpp:142 | An extraction after white space reads from the first character that is not white space. |
| Elevations.ParseThreeNumbers | src/main.cpp:142 | Three numbers separated by single spaces are read in turn as latitude, longitude and elevation. |
| Elevations.WordBeforeSpace | src/main.cpp:156 | A word followed by white space is extracted whole, and the white space is left unread. |
| Elevations.EchoTwoWords | src/main.cpp:154-157 | A line starting with two words, each followed by white space, is echoed as those two words, each followed by one space. |
| Elevations.SingleLineText | src/main.cpp:137-158 | A text of one newline-terminated line converts as that line, numbered 1. |
| Elevations.WorkedEcho | src/main.cpp:154-157 | The line "59.9 10.7 100.0" is echoed as "59.9 10.7 ". |
| Elevations.WorkedParse | src/main.cpp:140-142 | The line "59.9 10.7 100.0" parses to latitude 59.9, longitude 10.7 and elevation 100.0. |
| Elevations.WorkedLine | src/main.cpp:140-157 | Where the grid gives a correction of 41.3 at (10.7, 59.9, 0), the line converts to "59.9 10.7 " followed by the written 141.3 and a newline. |
| Elevations.WorkedExample | src/main.cpp:131-159 | The same input as a text yields that one record and no error. |
| Elevations.ConvertElevations | src/main.cpp:131-159 | The loop returns exactly the records and error of `ConvertText` over its input, so everything proved about `Convert` holds for the loop. |

## Left out

- The file and console selection (`Input`, `Output`) and `main`'s exception-to-exit-code mapping: they are I/O plumbing. The thrown `std::runtime_error` becomes the returned `Error`, and `Message` gives its text.
- The command-line parsing, `get_geoid_grid` and `get_geoid_info`: they are plumbing over external libraries. The grid is a parameter.
- GridLib's `model_pos_to_grid_pos` and `get_elevation` are foreign calls. They are the two function fields of `Grid`.
- Number parsing and formatting (`operator>>` and `operator<<` for `double`) are abstract functions. They are the fields of `NumberText`.
- Rounding and overflow of finite double sums are not modelled. `Add` adds finite values exactly as reals, so a finite sum that overflows to infinity is not captured.
- The output stream is modelled as the sequence of records written to it. Its contents are their concatenation.
- ConvertElevations: the `int` line counter is an unbounded `nat`, so the counter overflowing after 2^31 - 1 lines is not modelled.
- The `underflow`, `uflow` and `showmanyc` members are not overridden in the source. Character-at-a-time reads through the base class are not modelled.
- The `openmode` arguments of `seekoff` and `seekpos` are ignored by the source and are not parameters here.
- StreamBuffer.ReadOnlyStreamBuffer.SeekOff: `off`, `pos` and `size` are unbounded integers, so `-off` does not wrap. The 64-bit behaviour is modelled separately in `SeekOffAsWritten64`.
- StreamBuffer.ReadOnlyStreamBuffer.constructor: the conversion of a `size_t` above 2^63 - 1 to `std::streamsize` is not modelled. The caller must pass a size within the borrowed block.
- StreamBuffer.ReadOnlyStreamBuffer.XsGetN: the count must be non-negative and fit in the destination, and the destination must be a different array from the block. The source copies with `std::copy` under the same assumptions; a negative count would give it an invalid range.
- The reverse conversion, from ellipsoid back to geoid heights, does not exist in the source: the correction is only ever added. So no round trip through it is stated.

## Findings

| source | as written | input that shows it | evidently intended | confidence | as-written member | corrected member |
|---|---|---|---|---|---|---|
| src/ReadOnlyStreamBuffer.hpp:64 | `seekpos` sets the cursor to `min(p, size)`, which is bounded above only | `seekpos(-1)` on any stream leaves the cursor at -1. If the caller then clears the failbit that `seekg` sets for the -1 result, a later `xsgetn` copies from one byte before the block (StreamBuffer.ReadFromNegativeCursor) | the cursor clamped into `[0, size]`, as `seekoff` does | low: standard streams use a negative position to signal an error, so callers may never pass one; not executed | StreamBuffer.SeekPosNegativeEscapes | StreamBuffer.ClampedSeekPos |
| src/ReadOnlyStreamBuffer.hpp:32-49 | the `cur` and `end` branches test `-off > pos` and `-off > size` in 64-bit arithmetic | `seekoff(-2^63, cur)`: `-off` wraps to -2^63 (signed overflow, assuming two's-complement wrap-around), no branch clamps, and the cursor becomes `pos - 2^63 < 0` | the cursor clamped to 0 | low: the overflow is undefined behaviour in C++, and wrap-around is assumed; not executed | StreamBuffer.SeekOff64MinOffsetEscapes | StreamBuffer.SeekOffResult |

# GzOutputStream: placeholder line and preview-line removal

This project models the core of xournalpp's `src/util/OutputStream.cpp`.

`GzOutputStream` opens a gzip handle on a path, but it keeps the handle only for its open and close status. Every byte written goes through a plain file stream instead, and the constructor starts that file with a placeholder line of 23 spaces. On `close` the file is rewritten twice:

- `removeFirstLine` drops the first line, up to and including its newline.
- `removePreviewLine` reads the remaining lines with `std::getline` and drops every line that passes the preview test: `line.find("<preview>") == 0 && line.find("</preview>") == line.length() - 10`, with the subtraction taken on `size_t`. Every other line is written back followed by a newline. The rewrite replaces the file only when some line was dropped.

The modules follow that structure:

- `TextSearch`: `std::string::find` with `npos`, a scan for one character, and wrap-around subtraction on a 64-bit `size_t`.
- `LineSplit`: what `std::getline` reads. `FirstLine` is one line, `DropFirstLine` is what is left after it (this is `removeFirstLine`), and `Lines`/`Unlines` convert between text and its lines.
- `PreviewFilter`: the preview test, the preview pass as a function (`PreviewPass`), and the loop of `removePreviewLine` proved against it (`RemovePreviewLine`).
- `OutputStream`: the class `GzOutputStream`. Its state:
  - `gzOpen` is `fp != nullptr`.
  - `content` is the bytes of the file.
  - `error` is the sticky message.
  - Two ghost fields, `written` and `closed`, carry the invariant `Valid()`. Before the first close, the file is the placeholder line followed by exactly the bytes written.

Three consequences of the code worth knowing:

- Every line that passes the test is removed, however many there are.
- Every call to `close()` runs both passes, including calls after the first. Each further call therefore drops the file's current first line (`CloseTwoPlainLines`, `ClosePassesLines`, `TwoClosesSession`). Only the gzip close happens once.
- Writing `"LINE1\n"` and `"LINE2\n"` and closing once leaves `"LINE1\nLINE2\n"` (`TwoLinesScenario`). Closing a second time leaves `"LINE2\n"` (`CloseTwoPlainLines`).

## Model

| member | source | states |
|---|---|---|
| TextSearch.SizeSub | src/util/OutputStream.cpp:170 | `line.length() - 10` on `size_t`: the difference when it is not negative, otherwise it wraps to 2^64 minus the shortfall; always below 2^64 |
| TextSearch.IndexOf | src/util/OutputStream.cpp:169 | position of the first occurrence of a character (the newline `getline` stops at); nothing before it is that character; it equals the length exactly when the character is absent |
| TextSearch.FindFrom | src/util/OutputStream.cpp:170 | `find(p, i)`: either `npos` or a position at or after `i` where `p` occurs, with no occurrence between `i` and it |
| TextSearch.Find | src/util/OutputStream.cpp:170 | `find(p)`: when not `npos`, the first occurrence of `p`; when `npos`, `p` occurs nowhere |
| TextSearch.FindFirstOccurrence | src/util/OutputStream.cpp:170 | for a position below `npos`, `find` returns it exactly when it is the first occurrence |
| LineSplit.FirstLine | src/util/OutputStream.cpp:125-126 | the line `getline` reads is a newline-free prefix of the text, ended by a newline whenever it is shorter than the text |
| LineSplit.DropFirstLine | src/util/OutputStream.cpp:124-129 | `removeFirstLine` keeps exactly what follows the first newline, and nothing when there is no newline |
| LineSplit.SplitAtFirstNewline | src/util/OutputStream.cpp:124-129 | a text with a newline is its first line, that newline, and what `removeFirstLine` keeps |
| LineSplit.Lines | src/util/OutputStream.cpp:169 | the lines the `getline` loop visits contain no newline, and there are none exactly when the text is empty |
| LineSplit.Unlines | src/util/OutputStream.cpp:174 | writing each line followed by `std::endl` gives empty output for no lines and otherwise output ending in a newline |
| LineSplit.GetLineOfTerminated | src/util/OutputStream.cpp:124-129 | a newline-free line followed by a newline is read back as that line, and the rest is exactly what follows |
| LineSplit.AppendAfterFirstLine | src/util/OutputStream.cpp:52-62 | bytes written after the placeholder line leave the first line unchanged and are appended to what `removeFirstLine` keeps |
| LineSplit.LinesOfDropFirstLine | src/util/OutputStream.cpp:84-85 | after `removeFirstLine`, the preview pass sees exactly the lines after the first |
| LineSplit.LinesOfUnlines | src/util/OutputStream.cpp:169-174 | lines written with `std::endl` are read back by `getline` unchanged |
| LineSplit.UnlinesOfLines | src/util/OutputStream.cpp:169-174 | reading lines and writing them back reproduces the text, except that a last line without a newline gains one |
| LineSplit.UnlinesPair | src/util/OutputStream.cpp:174 | two lines are written as first line, newline, second line, newline |
| LineSplit.UnlinesAppend | src/util/OutputStream.cpp:174 | each line the loop writes is appended, followed by its newline, to what was written before |
| PreviewFilter.IsPreviewLine | src/util/OutputStream.cpp:170 | the test as written, `find("<preview>") == 0` and `find("</preview>") == length() - 10` on `size_t`; a line that passes starts with `<preview>` |
| PreviewFilter.PreviewLineIff | src/util/OutputStream.cpp:170 | the preview test holds exactly when the line starts with `<preview>` and either is that bare tag or ends with its first `</preview>` |
| PreviewFilter.BareOpenTagIsPreviewLine | src/util/OutputStream.cpp:170 | the bare `<preview>` line passes, because `9 - 10` wraps to `npos` |
| PreviewFilter.WrappedTextIsPreviewLine | src/util/OutputStream.cpp:170 | `<preview>` + text + `</preview>` passes whenever the text holds no `<` |
| PreviewFilter.EarlierCloseTagIsNotPreviewLine | src/util/OutputStream.cpp:170 | a line with an earlier `</preview>` before the final one fails |
| PreviewFilter.UntaggedLineIsNotPreviewLine | src/util/OutputStream.cpp:170 | a line that does not start with `<preview>` fails |
| PreviewFilter.KeptLines | src/util/OutputStream.cpp:169-175 | the lines written back come from the input and none of them passes the test |
| PreviewFilter.KeptLinesMembership | src/util/OutputStream.cpp:169-175 | a line is written back exactly when it was read and fails the test |
| PreviewFilter.KeptLinesAppend | src/util/OutputStream.cpp:169-175 | lines are kept one by one, in order |
| PreviewFilter.KeptLinesDropIff | src/util/OutputStream.cpp:168-175 | some line is dropped exactly when some line passes the test; otherwise every line is kept |
| PreviewFilter.PreviewPass | src/util/OutputStream.cpp:166-196 | `removePreviewLine` as a function: the kept lines, each written with a newline, when some line passed the test; otherwise the file as it was |
| PreviewFilter.PreviewPassLines | src/util/OutputStream.cpp:166-196 | after the pass the file's lines are exactly the kept lines, and none of them passes the test |
| PreviewFilter.PreviewPassUnchangedIff | src/util/OutputStream.cpp:182-196 | the file is left byte for byte unchanged exactly when no line passes the test |
| PreviewFilter.PreviewPassIdempotent | src/util/OutputStream.cpp:166-196 | running the pass again changes nothing |
| PreviewFilter.PreviewPassRewritten | src/util/OutputStream.cpp:166-192 | a replaced file has fewer lines than before, and ends in a newline |
| PreviewFilter.ConsumeLine | src/util/OutputStream.cpp:169-175 | one loop step: a matching line writes nothing and sets the flag; any other line is written with its newline |
| PreviewFilter.RemovePreviewLine | src/util/OutputStream.cpp:147-197 | the loop's flag says whether some line passed the test, and its result is the specified pass: the kept lines when the flag is set, the original text otherwise |
| OutputStream.CStringLength | src/util/OutputStream.cpp:22 | `strlen` is the position of the first NUL, and no NUL comes before it |
| OutputStream.CStringLengthOfTerminated | src/util/OutputStream.cpp:22 | a NUL-free text followed by a NUL has its own length |
| OutputStream.ClosePasses | src/util/OutputStream.cpp:84-85 | the two passes of `close`, in order: drop the first line, then the preview pass on what is left |
| OutputStream.RewriteOnClose | src/util/OutputStream.cpp:84-85 | running `removeFirstLine` and then the `removePreviewLine` loop produces exactly `ClosePasses` of the file |
| OutputStream.PlaceholderDropped | src/util/OutputStream.cpp:28-32 | the placeholder is 23 spaces and a newline, and `removeFirstLine` drops exactly it |
| OutputStream.FirstCloseContent | src/util/OutputStream.cpp:82-85 | a first close leaves the written bytes after the preview pass; their lines are the written lines minus every matching one |
| OutputStream.ClosePassesLines | src/util/OutputStream.cpp:83-85 | any close leaves the lines after the file's current first line, minus the matching ones |
| OutputStream.ClosePlainLines | src/util/OutputStream.cpp:82-85 | written lines that fail the test survive a first close unchanged; a further close drops the first of them |
| OutputStream.CloseWithPreviewLines | src/util/OutputStream.cpp:166-196 | written lines that include a matching one are rewritten as the kept lines with newlines |
| OutputStream.ClosePreviewThenLine | src/util/OutputStream.cpp:82-85 | a preview line followed by another line closes to the other line alone |
| OutputStream.CloseTwoPlainLines | src/util/OutputStream.cpp:82-88 | two plain lines survive one close, and a second close leaves only the second line |
| OutputStream.HelloIsPreviewLine | src/util/OutputStream.cpp:170 | `<preview>hello</preview>` passes the test |
| OutputStream.PreviewAndBodyScenario | src/util/OutputStream.cpp:82-85 | writing `<preview>hello</preview>` and `BODY` as lines and closing leaves `BODY\n` |
| OutputStream.TwoLinesScenario | src/util/OutputStream.cpp:82-85 | writing `LINE1` and `LINE2` as lines and closing once leaves both |
| OutputStream.GzOutputStream.Valid | src/util/OutputStream.cpp:28-62 | the class invariant: an open handle has not been closed; before the first close the file's first line is the placeholder and the rest is exactly what was written; a handle that never opened has had nothing written |
| OutputStream.GzOutputStream.constructor | src/util/OutputStream.cpp:28-41 | the file holds only the placeholder line; there is an error exactly when the gzip open failed |
| OutputStream.GzOutputStream.GetLastError | src/util/OutputStream.cpp:50 | returns the stored error |
| OutputStream.GzOutputStream.Write | src/util/OutputStream.cpp:52-62 | with an open handle and a non-zero length, appends exactly the first `len` bytes and keeps the invariant |
| OutputStream.GzOutputStream.WriteString | src/util/OutputStream.cpp:20 | appends the whole string |
| OutputStream.GzOutputStream.WriteCString | src/util/OutputStream.cpp:22 | appends the bytes before the first NUL, and no NUL is written |
| OutputStream.GzOutputStream.Close | src/util/OutputStream.cpp:82-101 | runs both passes on every call, so a first close leaves the preview pass of the written bytes; the handle is closed afterwards; the error is replaced exactly when an open handle closes with a status other than `Z_OK` |
| OutputStream.GzOutputStream.Dispose | src/util/OutputStream.cpp:43-48 | closes only while the handle is open, so after an explicit close the file and the error are untouched; otherwise it has `close`'s effect on the file and the error; the handle ends closed and the written bytes are unchanged |
| OutputStream.PreviewThenBodySession | src/util/OutputStream.cpp:28-101 | constructing, writing a preview line and a body line, closing and destroying leaves the body line alone, a closed handle and no error |
| OutputStream.TwoClosesSession | src/util/OutputStream.cpp:82-101 | constructing, writing two plain lines and closing leaves both; closing again leaves only the second, still with no error |

## Left out

- zlib itself: the gzip handle's bytes, `gzopen` and `gzclose`. Their outcomes are the parameters `gzOpened` and `status`.
- The path, the `.tmp` file, and the failure branches when opening, removing or renaming files (lines 110-122, 136-144, 152-164, 184-195). These are I/O failures outside the model. Each pass is modelled as succeeding.
- The text of the error messages: the localised wording, the file name, the error code, `strerror(errno)` and the `Z_ERRNO` case. Only whether an error is set, and which one, is modelled.
- `std::cerr` output, the flush in `ofp.close()`, and the trivial base-class constructor and destructor (lines 16-18).
- A failure of the `std::ofstream` in the constructor. The model assumes the placeholder line was written.
- `xoj_assert(len != 0 && this->fp)` in `write` is a precondition of `Write`, `WriteString` and `WriteCString`, not a checked failure.
- PreviewFilter.PreviewLineIff: holds only for lines shorter than 2^64 bytes, which `std::string` cannot exceed on a 64-bit system.
- OutputStream.TwoLinesScenario: states one close of that concrete file. The second close is proved in general by `CloseTwoPlainLines`.

/** `GzOutputStream`: a writer that opens a gzip handle on a path (kept only
    for its open and close status), writes every byte through a plain file
    stream that starts with a placeholder line, and on `close` rewrites the file
    twice: once to drop the placeholder line, once to drop preview lines. */
module OutputStream {
  import opened TextSearch
  import opened LineSplit
  import opened PreviewFilter

  /** The 23 spaces the constructor writes before `std::endl`. */
  const PLACEHOLDER_TEXT: string := "                       "

  /** The placeholder line as it lands in the file. */
  const PLACEHOLDER: string := PLACEHOLDER_TEXT + "\n"

  /** zlib's `Z_OK` status. */
  const Z_OK: int := 0

  /** Stand-ins for the localized messages; only their being non-empty matters. */
  const OPEN_ERROR: string := "Error opening file"
  const CLOSE_ERROR: string := "Error occurred while closing file"

  /** `std::strlen`: the number of bytes before the terminating NUL. */
  function CStringLength(buf: string): (n: nat)
    requires '\0' in buf
    ensures n < |buf| && buf[n] == '\0'
    ensures '\0' !in buf[..n]
  {
    IndexOf(buf, '\0')
  }

  /** A NUL-free text followed by its terminator has exactly its own length. */
  lemma CStringLengthOfTerminated(text: string, tail: string)
    requires '\0' !in text
    ensures CStringLength(text + "\0" + tail) == |text|
  {
    var buf := text + "\0" + tail;
    assert buf[|text|] == '\0';
    assert forall j :: 0 <= j < |text| ==> buf[j] == text[j];
  }

  /** The two passes `close` runs on the file, in order. */
  function ClosePasses(content: string): string
  {
    PreviewPass(DropFirstLine(content))
  }

  /** The two rewrites `close` performs, one after the other: drop the first
      line, then run the preview-line loop on what is left. */
  method RewriteOnClose(content: string) returns (result: string)
    ensures result == ClosePasses(content)
  {
    var rest := DropFirstLine(content);
    var previewFound;
    result, previewFound := RemovePreviewLine(rest);
  }

  /** Dropping the first line of a file that starts with the placeholder
      leaves exactly the bytes written after it. */
  lemma PlaceholderDropped(written: string)
    ensures PLACEHOLDER == "                       \n"
    ensures DropFirstLine(PLACEHOLDER + written) == written
  {
    assert '\n' !in PLACEHOLDER_TEXT;
    assert PLACEHOLDER + written == PLACEHOLDER_TEXT + "\n" + written;
    GetLineOfTerminated(PLACEHOLDER_TEXT, written);
  }

  /** After the first close the file holds the written lines minus every
      preview line, in order. */
  lemma FirstCloseContent(written: string)
    ensures ClosePasses(PLACEHOLDER + written) == PreviewPass(written)
    ensures Lines(ClosePasses(PLACEHOLDER + written)) == KeptLines(Lines(written))
  {
    PlaceholderDropped(written);
    PreviewPassLines(written);
  }

  /** Lines with no newline of their own, none of which passes the preview test. */
  predicate PlainLines(ls: seq<string>)
  {
    forall i :: 0 <= i < |ls| ==> '\n' !in ls[i] && !IsPreviewLine(ls[i])
  }

  /** Written plain lines survive a first close untouched, while a second
      close loses the first of them. */
  lemma ClosePlainLines(ls: seq<string>)
    requires PlainLines(ls)
    ensures ClosePasses(PLACEHOLDER + Unlines(ls)) == Unlines(ls)
    ensures ls != [] ==> ClosePasses(Unlines(ls)) == Unlines(ls[1..])
  {
    var w := Unlines(ls);
    FirstCloseContent(w);
    LinesOfUnlines(ls);
    KeptLinesDropIff(ls);
    if ls != [] {
      GetLineOfTerminated(ls[0], Unlines(ls[1..]));
      LinesOfUnlines(ls[1..]);
      assert PlainLines(ls[1..]);
      KeptLinesDropIff(ls[1..]);
    }
  }

  /** Written lines some of which pass the preview test: a first close leaves
      the others, each followed by a newline. */
  lemma CloseWithPreviewLines(ls: seq<string>)
    requires forall i :: 0 <= i < |ls| ==> '\n' !in ls[i]
    requires HasPreviewLine(ls)
    ensures ClosePasses(PLACEHOLDER + Unlines(ls)) == Unlines(KeptLines(ls))
  {
    FirstCloseContent(Unlines(ls));
    LinesOfUnlines(ls);
  }

  /** Every close drops the file's current first line before filtering, so a
      second close also loses the first line that survived the first one. */
  lemma ClosePassesLines(content: string)
    requires content != []
    ensures Lines(ClosePasses(content)) == KeptLines(Lines(content)[1..])
  {
    PreviewPassLines(DropFirstLine(content));
    LinesOfDropFirstLine(content);
  }

  /** The preview line of the scenario below passes the test. */
  lemma HelloIsPreviewLine()
    ensures IsPreviewLine("<preview>hello</preview>")
  {
    WrappedTextIsPreviewLine("hello");
    assert OPEN_TAG + "hello" + CLOSE_TAG == "<preview>hello</preview>";
  }

  /** A preview line followed by one other line: a close leaves the other line. */
  lemma ClosePreviewThenLine(preview: string, body: string)
    requires '\n' !in preview && IsPreviewLine(preview)
    requires '\n' !in body && !IsPreviewLine(body)
    ensures ClosePasses(PLACEHOLDER + (preview + "\n" + (body + "\n"))) == body + "\n"
  {
    var ls := [preview, body];
    assert IsPreviewLine(ls[0]) && ls[1..] == [body];
    assert KeptLines(ls) == [body];
    CloseWithPreviewLines(ls);
    UnlinesPair(preview, body);
  }

  /** Two plain lines: one close keeps both, a second close drops the first. */
  lemma CloseTwoPlainLines(first: string, second: string)
    requires PlainLines([first, second])
    ensures ClosePasses(PLACEHOLDER + (first + "\n" + (second + "\n"))) ==
            first + "\n" + (second + "\n")
    ensures ClosePasses(first + "\n" + (second + "\n")) == second + "\n"
  {
    var ls := [first, second];
    ClosePlainLines(ls);
    assert ls[1..] == [second];
    UnlinesPair(first, second);
  }

  /** The body line of the scenarios below fails the test. */
  lemma PlainScenarioLines()
    ensures PlainLines(["LINE1", "LINE2"])
    ensures '\n' !in "BODY" && !IsPreviewLine("BODY")
  {
    UntaggedLineIsNotPreviewLine("LINE1");
    UntaggedLineIsNotPreviewLine("LINE2");
    UntaggedLineIsNotPreviewLine("BODY");
  }

  /** The scenarios' files, written line by line. */
  lemma ScenarioTexts()
    ensures "<preview>hello</preview>" + "\n" + ("BODY" + "\n") == "<preview>hello</preview>\nBODY\n"
    ensures "LINE1" + "\n" + ("LINE2" + "\n") == "LINE1\nLINE2\n"
  {
  }

  /** Writing a preview line and a body line: only the body line is left. */
  lemma PreviewAndBodyScenario()
    ensures ClosePasses(PLACEHOLDER + "<preview>hello</preview>\nBODY\n") == "BODY\n"
  {
    HelloIsPreviewLine();
    PlainScenarioLines();
    ClosePreviewThenLine("<preview>hello</preview>", "BODY");
    ScenarioTexts();
  }

  /** Writing two plain lines: a close keeps both. */
  lemma TwoLinesScenario()
    ensures ClosePasses(PLACEHOLDER + "LINE1\nLINE2\n") == "LINE1\nLINE2\n"
  {
    PlainScenarioLines();
    CloseTwoPlainLines("LINE1", "LINE2");
    ScenarioTexts();
  }

  class GzOutputStream {
    /** `fp != nullptr`: the gzip handle opened and has not been closed. */
    var gzOpen: bool
    /** The bytes of the output file: what the plain stream wrote, as the
        rewrite passes of `close` left it. */
    var content: string
    /** The sticky message `getLastError` returns; empty means no error. */
    var error: string
    /** Every byte handed to `write` so far. */
    ghost var written: string
    /** `close` has run at least once. */
    ghost var closed: bool

    /** Before the first close the file is the placeholder line followed by
        the written bytes: its first line is the placeholder's text, and what
        dropping that line leaves is exactly what was written. Writing needs an
        open handle, so nothing was written when the handle never opened. */
    ghost predicate Valid()
      reads this
    {
      (gzOpen ==> !closed) &&
      (!closed ==> '\n' in content && FirstLine(content) == PLACEHOLDER_TEXT &&
                   DropFirstLine(content) == written) &&
      (!gzOpen && !closed ==> written == [])
    }

    /** Open the gzip handle (its outcome is `gzOpened`), truncate the file and
        write the placeholder line; a failed open only records an error. */
    constructor (gzOpened: bool)
      ensures Valid()
      ensures gzOpen == gzOpened && !closed && written == []
      ensures content == PLACEHOLDER
      ensures error != [] <==> !gzOpened
    {
      GetLineOfTerminated(PLACEHOLDER_TEXT, []);
      assert PLACEHOLDER == PLACEHOLDER_TEXT + "\n" + [];
      gzOpen := gzOpened;
      content := PLACEHOLDER;
      written := [];
      closed := false;
      error := if gzOpened then [] else OPEN_ERROR;
    }

    /** `getLastError`. */
    function GetLastError(): (e: string)
      reads this
      ensures e == error
    {
      error
    }

    /** `write(data, len)`: append the first `len` bytes of `data` to the file. */
    method Write(data: string, len: nat)
      requires Valid()
      requires len <= |data|
      requires len != 0 && gzOpen
      modifies this`content, this`written
      ensures Valid()
      ensures content == old(content) + data[..len]
      ensures written == old(written) + data[..len]
    {
      AppendAfterFirstLine(content, data[..len]);
      content := content + data[..len];
      written := written + data[..len];
    }

    /** `write(const std::string&)`: writes all of `str`. */
    method WriteString(str: string)
      requires Valid()
      requires |str| != 0 && gzOpen
      modifies this`content, this`written
      ensures Valid()
      ensures content == old(content) + str
      ensures written == old(written) + str
    {
      Write(str, |str|);
      assert str[..|str|] == str;
    }

    /** `write(const char*)`: writes the bytes before the terminating NUL. */
    method WriteCString(buf: string)
      requires Valid()
      requires '\0' in buf && CStringLength(buf) != 0 && gzOpen
      modifies this`content, this`written
      ensures Valid()
      ensures content == old(content) + buf[..CStringLength(buf)]
      ensures written == old(written) + buf[..CStringLength(buf)]
      ensures '\0' !in written[|old(written)|..]
    {
      Write(buf, CStringLength(buf));
      assert written[|old(written)|..] == buf[..CStringLength(buf)];
    }

    /** `close`: flush the file, run both rewrite passes (on every call, even
        after the handle was closed), then close the gzip handle once; a
        status other than `Z_OK` (given as `status`) replaces the error. */
    method Close(status: int)
      requires Valid()
      modifies this
      ensures Valid()
      ensures !gzOpen && closed && written == old(written)
      ensures content == ClosePasses(old(content))
      ensures !old(closed) ==> content == PreviewPass(old(written))
      ensures error == if old(gzOpen) && status != Z_OK then CLOSE_ERROR else old(error)
    {
      var rewritten := RewriteOnClose(content);
      assert !closed ==> DropFirstLine(content) == written;
      content := rewritten;
      closed := true;
      if gzOpen {
        gzOpen := false;
        if status != Z_OK {
          error := CLOSE_ERROR;
        }
      }
    }

    /** The destructor: closes only while the gzip handle is still open, so it
        never re-runs the passes after an explicit `close`. */
    method Dispose(status: int)
      requires Valid()
      modifies this
      ensures Valid() && !gzOpen && written == old(written)
      ensures old(gzOpen) ==> closed && content == ClosePasses(old(content))
      ensures old(gzOpen) ==> content == PreviewPass(old(written))
      ensures !old(gzOpen) ==> closed == old(closed) && content == old(content)
      ensures error == if old(gzOpen) && status != Z_OK then CLOSE_ERROR else old(error)
    {
      if gzOpen {
        Close(status);
      }
      gzOpen := false;
    }
  }

  /** A stream that writes a preview line and a body line, is closed, and is
      then destroyed: the file holds the body line alone, the destructor does
      not run the passes again, and no error is reported. */
  method PreviewThenBodySession(preview: string, body: string) returns (s: GzOutputStream)
    requires '\n' !in preview && IsPreviewLine(preview)
    requires '\n' !in body && !IsPreviewLine(body)
    ensures s.content == body + "\n" && s.error == [] && !s.gzOpen
  {
    s := new GzOutputStream(true);
    s.WriteString(preview + "\n" + (body + "\n"));
    s.Close(Z_OK);
    ClosePreviewThenLine(preview, body);
    s.Dispose(Z_OK);
  }

  /** A stream that writes two plain lines and is closed twice: the first close
      leaves both lines, the second loses the first of them. */
  method TwoClosesSession(first: string, second: string) returns (s: GzOutputStream, afterFirst: string)
    requires PlainLines([first, second])
    ensures afterFirst == first + "\n" + (second + "\n")
    ensures s.content == second + "\n" && s.error == []
  {
    var text := first + "\n" + (second + "\n");
    s := new GzOutputStream(true);
    s.WriteString(text);
    s.Close(Z_OK);
    CloseTwoPlainLines(first, second);
    afterFirst := s.content;
    s.Close(Z_OK);
  }
}

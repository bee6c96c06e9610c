/** The preview-line pass of `GzOutputStream::removePreviewLine`: every line
    that passes the preview test is dropped, every other line is written out
    again followed by a newline, and the file is replaced only when some line
    was dropped. */
module PreviewFilter {
  import opened TextSearch
  import opened LineSplit

  const OPEN_TAG: string := "<preview>"
  const CLOSE_TAG: string := "</preview>"

  /** The test exactly as the source writes it: `line.find("<preview>") == 0`
      and `line.find("</preview>") == line.length() - 10`, the subtraction
      taken on `size_t`. */
  predicate IsPreviewLine(line: string)
    ensures IsPreviewLine(line) ==> |line| >= |OPEN_TAG| && line[..|OPEN_TAG|] == OPEN_TAG
  {
    Find(line, OPEN_TAG) == 0 && Find(line, CLOSE_TAG) == SizeSub(|line|, 10)
  }

  /** The same test read as a rule on text: the line starts with the open tag,
      and either it is the bare open tag (where `length() - 10` wraps to `npos`,
      which is also what `find` reports for a missing close tag), or its first
      close tag is the one that ends it. */
  predicate PreviewShaped(line: string)
  {
    OccursAt(line, OPEN_TAG, 0) &&
    (line == OPEN_TAG ||
     (|line| >= |CLOSE_TAG| && FirstOccursAt(line, CLOSE_TAG, |line| - |CLOSE_TAG|)))
  }

  lemma PreviewLineIff(line: string)
    requires |line| < SIZE_T_MODULUS
    ensures IsPreviewLine(line) <==> PreviewShaped(line)
  {
    assert |OPEN_TAG| == 9 && |CLOSE_TAG| == 10;
    assert Find(line, OPEN_TAG) == 0 <==> OccursAt(line, OPEN_TAG, 0) by {
      FindFirstOccurrence(line, OPEN_TAG, 0);
    }
    if OccursAt(line, OPEN_TAG, 0) {
      assert line[..9] == OPEN_TAG;
      if |line| == 9 {
        assert line == OPEN_TAG;
        assert SizeSub(|line|, 10) == NPOS;
        assert Find(line, CLOSE_TAG) == NPOS;
      } else {
        assert |line| >= 10;
        assert line != OPEN_TAG;
        FindFirstOccurrence(line, CLOSE_TAG, |line| - 10);
      }
    }
  }

  /** The bare open tag is a preview line: `9 - 10` wraps to `npos`. */
  lemma BareOpenTagIsPreviewLine()
    ensures IsPreviewLine("<preview>")
  {
    PreviewLineIff("<preview>");
    assert OccursAt("<preview>", OPEN_TAG, 0);
  }

  /** Text with no `'<'` between the two tags makes a preview line. */
  lemma WrappedTextIsPreviewLine(text: string)
    requires '<' !in text
    requires |text| < SIZE_T_MODULUS - 19
    ensures IsPreviewLine(OPEN_TAG + text + CLOSE_TAG)
  {
    var line := OPEN_TAG + text + CLOSE_TAG;
    WrappedTextTags(text);
    WrappedTextNoEarlierClose(text);
    PreviewLineIff(line);
  }

  /** The wrapped line starts with the open tag and ends with the close tag. */
  lemma WrappedTextTags(text: string)
    ensures OccursAt(OPEN_TAG + text + CLOSE_TAG, OPEN_TAG, 0)
    ensures OccursAt(OPEN_TAG + text + CLOSE_TAG, CLOSE_TAG, |text| + 9)
  {
    var line := OPEN_TAG + text + CLOSE_TAG;
    assert line[..9] == OPEN_TAG;
    assert line[9 + |text|..] == CLOSE_TAG;
  }

  /** No close tag starts before the final one: each earlier position holds a
      character of the open tag or of the text, none of which can begin it. */
  lemma WrappedTextNoEarlierClose(text: string)
    requires '<' !in text
    ensures forall j :: 0 <= j < 9 + |text| ==> !OccursAt(OPEN_TAG + text + CLOSE_TAG, CLOSE_TAG, j)
  {
    var line := OPEN_TAG + text + CLOSE_TAG;
    forall j | 0 <= j < 9 + |text|
      ensures !OccursAt(line, CLOSE_TAG, j)
    {
      if j == 0 {
        assert line[1] == 'p';
        MismatchAt(line, CLOSE_TAG, 0, 1);
      } else if j < 9 {
        assert line[j] == OPEN_TAG[j];
        MismatchAt(line, CLOSE_TAG, j, 0);
      } else {
        assert line[j] == text[j - 9];
        MismatchAt(line, CLOSE_TAG, j, 0);
      }
    }
  }

  /** One differing character rules out an occurrence. */
  lemma MismatchAt(s: string, p: string, j: nat, k: nat)
    requires k < |p| && j + k < |s| && s[j + k] != p[k]
    ensures !OccursAt(s, p, j)
  {
    if j + |p| <= |s| {
      assert s[j..j + |p|][k] == s[j + k];
    }
  }

  /** A close tag that comes before the final one disqualifies the line. */
  lemma EarlierCloseTagIsNotPreviewLine()
    ensures !IsPreviewLine("<preview></preview>x</preview>")
  {
    var line := "<preview></preview>x</preview>";
    assert line[9..19] == CLOSE_TAG;
    assert OccursAt(line, CLOSE_TAG, 9);
    assert SizeSub(|line|, 10) == 20;
  }

  /** A line that does not start with the open tag is never a preview line. */
  lemma UntaggedLineIsNotPreviewLine(line: string)
    requires |line| < |OPEN_TAG| || line[..|OPEN_TAG|] != OPEN_TAG
    ensures !IsPreviewLine(line)
  {
  }

  /** Some line passes the preview test. */
  predicate HasPreviewLine(ls: seq<string>)
  {
    exists i :: 0 <= i < |ls| && IsPreviewLine(ls[i])
  }

  /** The lines the pass writes out: those failing the preview test, in order. */
  function KeptLines(ls: seq<string>): (kept: seq<string>)
    ensures |kept| <= |ls|
    ensures forall i :: 0 <= i < |kept| ==> kept[i] in ls && !IsPreviewLine(kept[i])
  {
    if ls == [] then []
    else (if IsPreviewLine(ls[0]) then [] else [ls[0]]) + KeptLines(ls[1..])
  }

  /** A line is kept exactly when it was there and fails the preview test. */
  lemma {:induction false} KeptLinesMembership(ls: seq<string>, line: string)
    ensures line in KeptLines(ls) <==> line in ls && !IsPreviewLine(line)
  {
    if ls != [] {
      KeptLinesMembership(ls[1..], line);
      assert ls == [ls[0]] + ls[1..];
    }
  }

  /** Filtering a concatenation filters each part and keeps their order. */
  lemma {:induction false} KeptLinesAppend(a: seq<string>, b: seq<string>)
    ensures KeptLines(a + b) == KeptLines(a) + KeptLines(b)
  {
    if a != [] {
      assert (a + b)[1..] == a[1..] + b;
      KeptLinesAppend(a[1..], b);
    } else {
      assert a + b == b;
    }
  }

  /** Something is dropped exactly when some line passes the test; otherwise
      every line is kept. */
  lemma {:induction false} KeptLinesDropIff(ls: seq<string>)
    ensures |KeptLines(ls)| < |ls| <==> HasPreviewLine(ls)
    ensures !HasPreviewLine(ls) ==> KeptLines(ls) == ls
  {
    if ls != [] {
      KeptLinesDropIff(ls[1..]);
      HasPreviewLineFront(ls);
      if !HasPreviewLine(ls) {
        assert ls == [ls[0]] + ls[1..];
      }
    }
  }

  /** Some line matches exactly when the first does or a later one does. */
  lemma HasPreviewLineFront(ls: seq<string>)
    requires ls != []
    ensures HasPreviewLine(ls) == (IsPreviewLine(ls[0]) || HasPreviewLine(ls[1..]))
  {
    if HasPreviewLine(ls[1..]) {
      var i :| 0 <= i < |ls[1..]| && IsPreviewLine(ls[1..][i]);
      assert IsPreviewLine(ls[i + 1]);
    }
    if HasPreviewLine(ls) && !IsPreviewLine(ls[0]) {
      var i :| 0 <= i < |ls| && IsPreviewLine(ls[i]);
      assert i > 0 && IsPreviewLine(ls[1..][i - 1]);
    }
  }

  /** Some line of a sequence extended by one matches exactly when an earlier
      one does or the new one does. */
  lemma HasPreviewLineBack(ls: seq<string>, line: string)
    ensures HasPreviewLine(ls + [line]) == (HasPreviewLine(ls) || IsPreviewLine(line))
  {
    var all := ls + [line];
    assert all[|ls|] == line;
    if HasPreviewLine(all) && !IsPreviewLine(line) {
      var i :| 0 <= i < |all| && IsPreviewLine(all[i]);
      assert i < |ls| && all[i] == ls[i];
    }
    if HasPreviewLine(ls) {
      var i :| 0 <= i < |ls| && IsPreviewLine(ls[i]);
      assert all[i] == ls[i];
    }
  }

  /** The content the preview pass leaves in the file: the kept lines, each
      written with a newline, when some line matched; otherwise the file as it was. */
  function PreviewPass(content: string): string
  {
    var ls := Lines(content);
    if HasPreviewLine(ls) then Unlines(KeptLines(ls)) else content
  }

  /** After the pass the file's lines are exactly the kept lines: every
      matching line is gone, the rest keep their order, and none passes the test. */
  lemma PreviewPassLines(content: string)
    ensures Lines(PreviewPass(content)) == KeptLines(Lines(content))
    ensures !HasPreviewLine(Lines(PreviewPass(content)))
  {
    var ls := Lines(content);
    KeptLinesDropIff(ls);
    if HasPreviewLine(ls) {
      LinesOfUnlines(KeptLines(ls));
    }
  }

  /** The file is left byte-identical exactly when no line matches. */
  lemma PreviewPassUnchangedIff(content: string)
    ensures PreviewPass(content) == content <==> !HasPreviewLine(Lines(content))
  {
    var ls := Lines(content);
    KeptLinesDropIff(ls);
    if HasPreviewLine(ls) {
      PreviewPassLines(content);
      assert Lines(PreviewPass(content)) != ls;
    }
  }

  /** Running the pass a second time changes nothing. */
  lemma PreviewPassIdempotent(content: string)
    ensures PreviewPass(PreviewPass(content)) == PreviewPass(content)
  {
    PreviewPassLines(content);
    PreviewPassUnchangedIff(PreviewPass(content));
  }

  /** When the file is replaced it has fewer lines than before, and every kept
      line ends in a newline, a last line that had none included. */
  lemma PreviewPassRewritten(content: string)
    requires HasPreviewLine(Lines(content))
    ensures |Lines(PreviewPass(content))| < |Lines(content)|
    ensures PreviewPass(content) == [] || PreviewPass(content)[|PreviewPass(content)| - 1] == '\n'
  {
    KeptLinesDropIff(Lines(content));
    PreviewPassLines(content);
  }

  /** Reading one more line: what the pass writes and whether it has found a
      preview line so far. */
  lemma {:induction false} ConsumeLine(consumed: seq<string>, line: string)
    ensures IsPreviewLine(line) ==>
            Unlines(KeptLines(consumed + [line])) == Unlines(KeptLines(consumed))
    ensures !IsPreviewLine(line) ==>
            Unlines(KeptLines(consumed + [line])) == Unlines(KeptLines(consumed)) + line + "\n"
    ensures HasPreviewLine(consumed + [line]) == (HasPreviewLine(consumed) || IsPreviewLine(line))
  {
    KeptLinesAppend(consumed, [line]);
    assert KeptLines([line]) == if IsPreviewLine(line) then [] else [line];
    if !IsPreviewLine(line) {
      UnlinesAppend(KeptLines(consumed), line);
    } else {
      assert KeptLines(consumed + [line]) == KeptLines(consumed);
    }
    HasPreviewLineBack(consumed, line);
  }

  /** One more `getline` moves the first remaining line to the lines consumed. */
  lemma ReadOneLine(content: string, consumed: seq<string>, rest: string)
    requires rest != [] && Lines(content) == consumed + Lines(rest)
    ensures Lines(content) == (consumed + [FirstLine(rest)]) + Lines(DropFirstLine(rest))
  {
    var line, next := FirstLine(rest), DropFirstLine(rest);
    assert Lines(rest) == [line] + Lines(next);
    assert consumed + ([line] + Lines(next)) == (consumed + [line]) + Lines(next);
  }

  /** The loop of `removePreviewLine`: read lines with `getline`, skip the
      matching ones and note that one was found, write every other line with
      a newline; the rewritten text replaces the content only if one was found. */
  method RemovePreviewLine(content: string) returns (result: string, found: bool)
    ensures found == HasPreviewLine(Lines(content))
    ensures result == PreviewPass(content)
  {
    var rest := content;
    var out: string := [];
    ghost var consumed: seq<string> := [];
    found := false;
    while rest != []
      invariant Lines(content) == consumed + Lines(rest)
      invariant out == Unlines(KeptLines(consumed))
      invariant found == HasPreviewLine(consumed)
      decreases |rest|
    {
      var line, next := FirstLine(rest), DropFirstLine(rest);
      ReadOneLine(content, consumed, rest);
      ConsumeLine(consumed, line);
      if IsPreviewLine(line) {
        found := true;
      } else {
        out := out + line + "\n";
      }
      consumed, rest := consumed + [line], next;
    }
    assert Lines(rest) == [];
    assert consumed == Lines(content);
    if found {
      result := out;
    } else {
      result := content;
    }
  }
}

/** Line structure of a file's contents as `std::getline` sees it: a line is
    everything up to the next `'\n'`, which is consumed and not kept; a last line
    without a newline is still a line; nothing left means no further line. */
module LineSplit {
  import opened TextSearch

  /** The line one `std::getline` extracts from the front of `s`. */
  function FirstLine(s: string): (line: string)
    ensures '\n' !in line
    ensures line <= s
    ensures |line| < |s| ==> s[|line|] == '\n'
  {
    s[..IndexOf(s, '\n')]
  }

  /** What is left of `s` after one `std::getline`: the first line and the
      newline that ends it are consumed; without a newline nothing is left. */
  function DropFirstLine(s: string): (rest: string)
    ensures '\n' !in s ==> rest == []
    ensures '\n' in s ==> |FirstLine(s)| < |s| && rest == s[|FirstLine(s)| + 1..]
  {
    var k := IndexOf(s, '\n');
    if k < |s| then s[k + 1..] else []
  }

  /** A text with a newline is its first line, that newline, and the remainder. */
  lemma SplitAtFirstNewline(s: string)
    requires '\n' in s
    ensures s == FirstLine(s) + "\n" + DropFirstLine(s)
  {
    var k := |FirstLine(s)|;
    assert s == s[..k] + [s[k]] + s[k + 1..];
  }

  /** The lines a `while (std::getline(in, line))` loop visits, in order. */
  function Lines(s: string): (ls: seq<string>)
    ensures forall i :: 0 <= i < |ls| ==> '\n' !in ls[i]
    ensures ls == [] <==> s == []
    decreases |s|
  {
    if s == [] then [] else [FirstLine(s)] + Lines(DropFirstLine(s))
  }

  /** The text written by `out << line << std::endl` for each line in turn. */
  function Unlines(ls: seq<string>): (s: string)
    ensures ls != [] ==> s != [] && s[|s| - 1] == '\n'
    ensures ls == [] ==> s == []
  {
    if ls == [] then [] else ls[0] + "\n" + Unlines(ls[1..])
  }

  /** A line with no newline, followed by a newline, is read back as exactly that line. */
  lemma GetLineOfTerminated(line: string, rest: string)
    requires '\n' !in line
    ensures FirstLine(line + "\n" + rest) == line
    ensures DropFirstLine(line + "\n" + rest) == rest
  {
    var s := line + "\n" + rest;
    var k := IndexOf(s, '\n');
    assert s[|line|] == '\n';
    assert forall j :: 0 <= j < |line| ==> s[j] == line[j];
    assert k == |line|;
    assert s[k + 1..] == rest;
  }

  /** Bytes appended after a complete first line leave that line in place
      and extend what follows it. */
  lemma AppendAfterFirstLine(s: string, more: string)
    requires '\n' in s
    ensures '\n' in s + more
    ensures FirstLine(s + more) == FirstLine(s)
    ensures DropFirstLine(s + more) == DropFirstLine(s) + more
  {
    var line, rest := FirstLine(s), DropFirstLine(s);
    SplitAtFirstNewline(s);
    assert s + more == line + "\n" + (rest + more);
    GetLineOfTerminated(line, rest + more);
  }

  /** Dropping the first line leaves exactly the remaining lines. */
  lemma LinesOfDropFirstLine(s: string)
    ensures s != [] ==> Lines(DropFirstLine(s)) == Lines(s)[1..]
  {
  }

  /** Writing lines out and reading them back gives the same lines. */
  lemma {:induction false} LinesOfUnlines(ls: seq<string>)
    requires forall i :: 0 <= i < |ls| ==> '\n' !in ls[i]
    ensures Lines(Unlines(ls)) == ls
  {
    if ls != [] {
      var s, tail := Unlines(ls), Unlines(ls[1..]);
      assert s == ls[0] + "\n" + tail;
      GetLineOfTerminated(ls[0], tail);
      LinesOfUnlines(ls[1..]);
      assert Lines(s) == [ls[0]] + Lines(tail);
      assert [ls[0]] + ls[1..] == ls;
    }
  }

  /** Reading lines and writing them out again reproduces the text, except
      that a last line without a newline gains one. */
  lemma {:induction false} UnlinesOfLines(s: string)
    ensures Unlines(Lines(s)) == if s == [] || s[|s| - 1] == '\n' then s else s + "\n"
    decreases |s|
  {
    if s != [] {
      var line, rest := FirstLine(s), DropFirstLine(s);
      assert Unlines(Lines(s)) == line + "\n" + Unlines(Lines(rest)) by {
        assert Lines(s) == [line] + Lines(rest);
        UnlinesCons(line, Lines(rest));
      }
      if '\n' !in s {
        assert line == s && rest == [];
      } else if rest == [] {
        SplitAtFirstNewline(s);
        assert s == line + "\n";
      } else {
        SplitAtFirstNewline(s);
        UnlinesOfLines(rest);
        LastOfSplit(s, line, rest);
      }
    }
  }

  /** The last character of a split text is that of its non-empty remainder. */
  lemma LastOfSplit(s: string, line: string, rest: string)
    requires s == line + "\n" + rest && rest != []
    ensures s[|s| - 1] == rest[|rest| - 1]
    ensures s + "\n" == line + "\n" + (rest + "\n")
  {
  }

  /** Writing a line in front writes it, then its newline, then the rest. */
  lemma UnlinesCons(line: string, ls: seq<string>)
    ensures Unlines([line] + ls) == line + "\n" + Unlines(ls)
  {
    assert ([line] + ls)[1..] == ls;
  }

  /** Writing two lines, and writing the second alone. */
  lemma UnlinesPair(first: string, second: string)
    ensures Unlines([first, second]) == first + "\n" + (second + "\n")
    ensures Unlines([second]) == second + "\n"
  {
    assert [first, second][1..] == [second];
    UnlinesCons(second, []);
    UnlinesCons(first, [second]);
  }

  /** Writing one more line appends that line and its newline. */
  lemma {:induction false} UnlinesAppend(ls: seq<string>, line: string)
    ensures Unlines(ls + [line]) == Unlines(ls) + line + "\n"
  {
    if ls != [] {
      assert (ls + [line])[1..] == ls[1..] + [line];
      UnlinesAppend(ls[1..], line);
    } else {
      assert ls + [line] == [line];
    }
  }
}

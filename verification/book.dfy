/** The book editor's text codec: a quest file is cut into fixed-width book
    pages when the editor opens (`QuestGuiManager.splitIntoPages`) and the
    edited pages are glued back together when the book is saved
    (`QuestGuiManager.updateQuestFromBook`). Cutting ignores line breaks and
    gluing puts a newline between pages, so the two are not inverses once a
    file is longer than one page. */
module BookCodec {
  import opened JavaText

  /** Characters per book page, as `openEditor` passes it. */
  const PageWidth: nat := 240

  function Min(a: int, b: int): int {
    if a < b then a else b
  }

  /** `Join` of a list with at least two entries peels off its head. */
  lemma JoinCons(sep: string, p: string, rest: seq<string>)
    requires rest != []
    ensures Join(sep, [p] + rest) == p + sep + Join(sep, rest)
  {
    assert ([p] + rest)[1..] == rest;
  }

  /** The `while` loop of `splitIntoPages`: successive `width`-char pieces,
      the last one possibly shorter. */
  function Chunks(s: string, width: nat): (pages: seq<string>)
    requires width > 0
    ensures pages == [] <==> s == []
    ensures Join("", pages) == s
    ensures forall i :: 0 <= i < |pages| ==> 0 < |pages[i]| <= width
    ensures forall i :: 0 <= i < |pages| - 1 ==> |pages[i]| == width
    decreases |s|
  {
    if s == [] then []
    else
      var end := Min(width, |s|);
      var rest := Chunks(s[end..], width);
      if rest == [] then
        assert s[..end] == s;
        [s[..end]]
      else
        JoinCons("", s[..end], rest);
        assert s[..end] + s[end..] == s;
        [s[..end]] + rest
  }

  /** `splitIntoPages(content, width)`: an empty file is one empty page;
      otherwise the pages spell the file, each holds 1 to `width` chars, and
      every page but the last is full. A width of 0 would never terminate in
      the source, so it is excluded. */
  function SplitIntoPages(content: string, width: nat): (pages: seq<string>)
    requires width > 0
    ensures |pages| >= 1
    ensures content == [] ==> pages == [""]
    ensures content != [] ==> Join("", pages) == content
    ensures content != [] ==> forall i :: 0 <= i < |pages| ==> 0 < |pages[i]| <= width
    ensures forall i :: 0 <= i < |pages| - 1 ==> |pages[i]| == width
  {
    if content == [] then [""] else Chunks(content, width)
  }

  /** The text `updateQuestFromBook` writes: the pages joined with "\n",
      trailing whitespace stripped, one "\n" appended. It always ends in a
      single newline preceded by a non-whitespace char (unless it is just
      "\n"), and before that newline it is a prefix of the joined pages whose
      remainder is all whitespace. */
  function SaveText(pages: seq<string>): (text: string)
    ensures |text| >= 1 && text[|text| - 1] == '\n'
    ensures |text| >= 2 ==> !IsWhitespace(text[|text| - 2])
    ensures var joined := Join("\n", pages);
      && |text| - 1 <= |joined|
      && text[..|text| - 1] == joined[..|text| - 1]
      && forall i :: |text| - 1 <= i < |joined| ==> IsWhitespace(joined[i])
  {
    var stripped := StripTrailing(Join("\n", pages));
    var text := stripped + "\n";
    assert text[..|text| - 1] == stripped;
    text
  }

  /** The pages of a file that fits on one page are that file alone. */
  lemma ShortContentOnePage(content: string)
    requires |content| <= PageWidth
    ensures Join("\n", SplitIntoPages(content, PageWidth)) == content
  {
    if content != [] {
      var pages := SplitIntoPages(content, PageWidth);
      assert |pages| == 1;
    }
  }

  /** Opening and saving a book unchanged gives back the file, with trailing
      whitespace stripped and one newline appended, when it fits on one
      page. */
  lemma ShortRoundTrip(content: string)
    requires |content| <= PageWidth
    ensures SaveText(SplitIntoPages(content, PageWidth)) == StripTrailing(content) + "\n"
  {
    ShortContentOnePage(content);
  }

  /** A longer file splits into a full first page followed by the pages of
      the rest. */
  lemma LongContentSplit(content: string)
    requires |content| > PageWidth
    ensures var pages := SplitIntoPages(content, PageWidth);
      && |pages| >= 2
      && pages[0] == content[..PageWidth]
      && pages[1..] == SplitIntoPages(content[PageWidth..], PageWidth)
  {
  }

  /** Joining the pages of a long file with "\n": its first page, a
      newline, then the joined pages of the rest. */
  lemma LongContentJoined(content: string)
    requires |content| > PageWidth
    ensures Join("\n", SplitIntoPages(content, PageWidth))
         == content[..PageWidth] + "\n" + Join("\n", SplitIntoPages(content[PageWidth..], PageWidth))
  {
    LongContentSplit(content);
    var pages := SplitIntoPages(content, PageWidth);
    JoinCons("\n", pages[0], pages[1..]);
    assert pages == [pages[0]] + pages[1..];
  }

  /** Joining with "\n" adds one char per page break: `(n - 1) / 240` of
      them for an `n`-char file. */
  lemma {:induction false} JoinedLength(content: string)
    requires content != []
    ensures |Join("\n", SplitIntoPages(content, PageWidth))| == |content| + (|content| - 1) / PageWidth
    decreases |content|
  {
    if |content| <= PageWidth {
      ShortContentOnePage(content);
    } else {
      LongContentJoined(content);
      JoinedLength(content[PageWidth..]);
    }
  }

  /** Char `i` of the file moves right by the number of page breaks before
      it, `i / 240`. */
  lemma {:induction false} JoinedCharPositions(content: string, i: nat)
    requires i < |content|
    ensures var joined := Join("\n", SplitIntoPages(content, PageWidth));
      i + i / PageWidth < |joined| && joined[i + i / PageWidth] == content[i]
    decreases |content|
  {
    JoinedLength(content);
    if |content| <= PageWidth {
      ShortContentOnePage(content);
    } else {
      LongContentJoined(content);
      if i >= PageWidth {
        var i' := i - PageWidth;
        JoinedCharPositions(content[PageWidth..], i');
        assert i / PageWidth == 1 + i' / PageWidth;
      }
    }
  }

  /** A newline sits right after every full page: at index
      `k * 241 - 1` for the `k`-th break. */
  lemma {:induction false} JoinedBreakPositions(content: string, k: nat)
    requires 1 <= k && k * PageWidth < |content|
    ensures var joined := Join("\n", SplitIntoPages(content, PageWidth));
      k * (PageWidth + 1) - 1 < |joined| && joined[k * (PageWidth + 1) - 1] == '\n'
    decreases k
  {
    JoinedLength(content);
    LongContentJoined(content);
    if k > 1 {
      JoinedBreakPositions(content[PageWidth..], k - 1);
    }
  }

  /** A file longer than one page does not survive the round trip as is:
      the joined pages are longer than the file. */
  lemma LongContentGainsBreaks(content: string)
    requires |content| > PageWidth
    ensures |Join("\n", SplitIntoPages(content, PageWidth))| > |content|
    ensures Join("\n", SplitIntoPages(content, PageWidth)) != content
  {
    JoinedLength(content);
  }

  /** A concrete case: 241 letters come back with a newline after the
      240th. */
  lemma LongRoundTripExample()
    ensures var content := seq(241, _ => 'a');
      SaveText(SplitIntoPages(content, PageWidth)) != StripTrailing(content) + "\n"
  {
    var content := seq(241, _ => 'a');
    var saved := SaveText(SplitIntoPages(content, PageWidth));
    var joined := Join("\n", SplitIntoPages(content, PageWidth));
    JoinedLength(content);
    JoinedBreakPositions(content, 1);
    JoinedCharPositions(content, 240);
    assert !IsWhitespace(joined[|joined| - 1]);
    assert StripTrailing(joined) == joined;
    assert saved[PageWidth] == '\n';
    assert StripTrailing(content) == content by {
      assert !IsWhitespace(content[240]);
    }
    assert (StripTrailing(content) + "\n")[PageWidth] == 'a';
  }
}

/**
 * The /get-count statistics: the length of the text with its spaces
 * replaced by nothing, and the number of non-empty pieces when the text is
 * split at spaces. Only the space character ' ' separates; tabs and newlines do not.
 */
module TextStats {
  /** The text with every space deleted. */
  function RemoveSpaces(text: string): string
  {
    if text == [] then []
    else if text[0] == ' ' then RemoveSpaces(text[1..])
    else [text[0]] + RemoveSpaces(text[1..])
  }

  /** Splitting at ' ': the pieces between spaces, empty ones included. */
  function Split(text: string): (pieces: seq<string>)
    ensures |pieces| >= 1
  {
    if text == [] then [[]]
    else if text[0] == ' ' then [[]] + Split(text[1..])
    else
      var rest := Split(text[1..]);
      [[text[0]] + rest[0]] + rest[1..]
  }

  /** The pieces glued back together with a ' ' between neighbours. */
  function Join(pieces: seq<string>): string
    requires pieces != []
  {
    if |pieces| == 1 then pieces[0] else pieces[0] + " " + Join(pieces[1..])
  }

  /** There is one more piece than there are spaces, and no piece holds one. */
  lemma {:induction false} SplitPieces(text: string)
    ensures |Split(text)| == multiset(text)[' '] + 1
    ensures forall p :: p in Split(text) ==> ' ' !in p
  {
    if text != [] {
      var c, tail := text[0], text[1..];
      assert text == [c] + tail;
      SplitPieces(tail);
      var rest := Split(tail);
      if c != ' ' {
        assert Split(text) == [[c] + rest[0]] + rest[1..];
        assert rest[0] in rest;
        forall p | p in rest[1..] ensures ' ' !in p {
          assert p in rest;
        }
      }
    }
  }

  /** Joining the pieces with ' ' gives back the text that was split. */
  lemma {:induction false} JoinSplit(text: string)
    ensures Join(Split(text)) == text
  {
    if text != [] {
      var c, tail := text[0], text[1..];
      assert text == [c] + tail;
      JoinSplit(tail);
      var rest := Split(tail);
      var pieces := Split(text);
      if c == ' ' {
        assert pieces == [[]] + rest && pieces[1..] == rest;
        calc {
          Join(pieces);
          [] + " " + Join(rest);
          [c] + tail;
        }
      } else if |rest| == 1 {
        assert pieces == [[c] + rest[0]];
        assert rest[0] == tail;
      } else {
        var more := rest[1..];
        assert pieces == [[c] + rest[0]] + more && pieces[1..] == more;
        assert Join(rest) == rest[0] + " " + Join(more);
        calc {
          Join(pieces);
          ([c] + rest[0]) + " " + Join(more);
          [c] + (rest[0] + " " + Join(more));
          [c] + tail;
        }
      }
    }
  }

  /** The pieces that are not empty, in order (the remove-empty-entries option). */
  function NonEmpty(pieces: seq<string>): seq<string>
  {
    if pieces == [] then []
    else if pieces[0] == [] then NonEmpty(pieces[1..])
    else [pieces[0]] + NonEmpty(pieces[1..])
  }

  /** totalCount: the characters left once the spaces are removed. */
  function TotalCount(text: string): (r: nat)
    ensures r == |text| - multiset(text)[' ']
  {
    TotalCountCountsNonSpaces(text);
    |RemoveSpaces(text)|
  }

  /** totalWords: the non-empty pieces of the split, one per run of
      non-space characters. */
  function TotalWords(text: string): (r: nat)
    ensures r == WordStarts(text, true)
  {
    SplitCountsWordStarts(text);
    |NonEmpty(Split(text))|
  }

  /**
   * Reference count of words: the positions where a run of non-space
   * characters begins. afterSpace says whether the character before text
   * (or the start of the string) is a separator.
   */
  function WordStarts(text: string, afterSpace: bool): nat
  {
    if text == [] then 0
    else (if text[0] != ' ' && afterSpace then 1 else 0) + WordStarts(text[1..], text[0] == ' ')
  }

  /** totalCount is the number of characters that are not ' ', and none of
      the characters kept is a space. */
  lemma {:induction false} TotalCountCountsNonSpaces(text: string)
    ensures |RemoveSpaces(text)| == |text| - multiset(text)[' ']
    ensures ' ' !in RemoveSpaces(text)
    ensures multiset(RemoveSpaces(text)) == multiset(text)[' ' := 0]
  {
    if text != [] {
      TotalCountCountsNonSpaces(text[1..]);
      assert text == [text[0]] + text[1..];
    }
  }

  lemma NonEmptyCons(x: string, xs: seq<string>)
    ensures NonEmpty([x] + xs) == (if x != [] then [x] else []) + NonEmpty(xs)
  {
    assert ([x] + xs)[1..] == xs;
  }

  /** The non-empty pieces after the first are the words that start after
      the first space; with the first piece, all words. */
  lemma {:induction false} SplitCountsWordStarts(text: string)
    ensures |NonEmpty(Split(text))| == WordStarts(text, true)
    ensures |NonEmpty(Split(text)[1..])| == WordStarts(text, false)
  {
    if text != [] {
      var tail := text[1..];
      SplitCountsWordStarts(tail);
      var rest := Split(tail);
      if text[0] == ' ' {
        NonEmptyCons([], rest);
        assert Split(text)[1..] == rest;
      } else {
        var first := [text[0]] + rest[0];
        assert Split(text) == [first] + rest[1..];
        NonEmptyCons(first, rest[1..]);
        assert Split(text)[1..] == rest[1..];
        assert rest == [rest[0]] + rest[1..];
        NonEmptyCons(rest[0], rest[1..]);
      }
    }
  }

  /** "a bb  ccc" has six non-space characters in three words. */
  lemma ExampleCounts()
    ensures TotalCount("a bb  ccc") == 6
    ensures TotalWords("a bb  ccc") == 3
  {
    ExampleRuns();
  }

  lemma ExampleRuns()
    ensures WordStarts("a bb  ccc", true) == 3
  {
    assert WordStarts("ccc", true) == 1;
    assert WordStarts("  ccc", false) == 1;
    assert WordStarts("bb  ccc", true) == 2;
    assert WordStarts(" bb  ccc", false) == 2;
  }

  /** A tab does not separate words. */
  lemma TabIsNotASeparator()
    ensures TotalWords("a\tb") == 1
  {
  }
}

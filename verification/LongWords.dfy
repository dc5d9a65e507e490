/** Words longer than a line (badge-screen/src/lib.rs, `wrap`): what is cut,
  where, and what that does to the theorems of TextWrap.
*/
module LongWords {
  import opened TextWrap

  // ---------- pieces ----------

  /** The pieces a word is shown in: full lines, and what is left over. */
  ghost predicate ArePieces(word: string, pieces: seq<string>, maxChars: nat) {
    && Glued(pieces) == word && pieces != []
    && (forall k :: 0 <= k < |pieces| - 1 ==> |pieces[k]| == maxChars)
    && 1 <= |pieces[|pieces| - 1]| <= maxChars
  }

  function Pieces(word: string, maxChars: nat): (pieces: seq<string>)
    requires maxChars > 0
    decreases |word|
  {
    if |word| <= maxChars then [word] else [word[..maxChars]] + Pieces(word[maxChars..], maxChars)
  }

  function AllPieces(words: seq<string>, maxChars: nat): (pieces: seq<string>)
    requires maxChars > 0
  {
    if words == [] then [] else Pieces(words[0], maxChars) + AllPieces(words[1..], maxChars)
  }

  lemma {:induction false} PiecesAreWords(word: string, maxChars: nat)
    requires maxChars > 0 && IsWord(word)
    ensures var pieces := Pieces(word, maxChars);
      ArePieces(word, pieces, maxChars) && AreWords(pieces) && WordsWithin(pieces, maxChars)
    decreases |word|
  {
    if |word| > maxChars {
      var rest := word[maxChars..];
      PiecesAreWords(rest, maxChars);
      GluedBehind(word[..maxChars], Pieces(rest, maxChars));
      assert word == word[..maxChars] + rest;
    } else {
      assert Glued([word]) == word + Glued([][..]) == word;
    }
  }

  lemma {:induction false} AllPiecesAreWords(words: seq<string>, maxChars: nat)
    requires maxChars > 0 && AreWords(words)
    ensures AreWords(AllPieces(words, maxChars)) && WordsWithin(AllPieces(words, maxChars), maxChars)
    ensures Glued(AllPieces(words, maxChars)) == Glued(words)
  {
    if words != [] {
      PiecesAreWords(words[0], maxChars);
      AllPiecesAreWords(words[1..], maxChars);
      GluedJoins(Pieces(words[0], maxChars), AllPieces(words[1..], maxChars));
    }
  }

  // ---------- wrapping cuts words into their pieces ----------

  /** On a fresh line a word that is too long gives up a full line. */
  lemma CutPlaces(lines: seq<string>, word: string, maxChars: nat, maxLines: nat)
    requires maxChars > 0 && Open(Layout(lines, "", false), maxChars, maxLines) && IsWord(word) && |word| > maxChars
    ensures var head, full := word[..maxChars], Layout(lines, word[..maxChars], false);
      && Place(Layout(lines, "", false), head, maxChars, maxLines) == full
      && Place(Layout(lines, "", false), word, maxChars, maxLines)
         == if |lines| + 1 == maxLines then Layout(lines + [head], "", true)
            else Place(Layout(lines + [head], "", false), word[maxChars..], maxChars, maxLines)
  {
  }

  /** A full line takes no further word. */
  lemma FullLinePlaces(lines: seq<string>, line: string, word: string, maxChars: nat, maxLines: nat)
    requires maxChars > 0 && |line| == maxChars && Open(Layout(lines, line, false), maxChars, maxLines) && word != ""
    ensures Place(Layout(lines, line, false), word, maxChars, maxLines)
         == if |lines| + 1 == maxLines then Layout(lines + [line], "", true)
            else Place(Layout(lines + [line], "", false), word, maxChars, maxLines)
  {
  }

  /** A word that is too long starts on a fresh line. */
  lemma FreshLine(at: Layout, word: string, maxChars: nat, maxLines: nat)
    requires maxChars > 0 && Open(at, maxChars, maxLines) && |word| >= maxChars && at.current != ""
    ensures Place(at, word, maxChars, maxLines)
         == if |at.lines| + 1 == maxLines then Layout(at.lines + [at.current], "", true)
            else Place(Layout(at.lines + [at.current], "", false), word, maxChars, maxLines)
  {
  }

  lemma FullStays(at: Layout, words: seq<string>, maxChars: nat, maxLines: nat)
    requires at.full && maxChars > 0
    ensures PlaceAll(at, words, maxChars, maxLines) == at
  {
  }

  lemma PlaceFirst(at: Layout, words: seq<string>, maxChars: nat, maxLines: nat)
    requires maxChars > 0 && Open(at, maxChars, maxLines) && words != []
    ensures PlaceAll(at, words, maxChars, maxLines)
         == PlaceAll(Place(at, words[0], maxChars, maxLines), words[1..], maxChars, maxLines)
  {
  }

  lemma {:induction false} PlaceAllJoins(at: Layout, a: seq<string>, b: seq<string>, maxChars: nat, maxLines: nat)
    requires maxChars > 0 && (!at.full ==> Open(at, maxChars, maxLines))
    ensures PlaceAll(at, a + b, maxChars, maxLines) == PlaceAll(PlaceAll(at, a, maxChars, maxLines), b, maxChars, maxLines)
    decreases |a|
  {
    if a == [] {
      assert a + b == b;
    } else if !at.full {
      assert (a + b)[1..] == a[1..] + b;
      PlaceAllJoins(Place(at, a[0], maxChars, maxLines), a[1..], b, maxChars, maxLines);
    }
  }

  /** Placing a word is placing its pieces. */
  lemma {:induction false} PlaceIsPieces(at: Layout, word: string, maxChars: nat, maxLines: nat)
    requires maxChars > 0 && Open(at, maxChars, maxLines) && IsWord(word)
    ensures Place(at, word, maxChars, maxLines) == PlaceAll(at, Pieces(word, maxChars), maxChars, maxLines)
    decreases |word|, |at.current|
  {
    var pieces := Pieces(word, maxChars);
    if |word| <= maxChars {
      assert pieces[1..] == [];
    } else if at.current != "" {
      var clean := Layout(at.lines + [at.current], "", false);
      FreshLine(at, word, maxChars, maxLines);
      assert pieces[0] == word[..maxChars];
      FreshLine(at, pieces[0], maxChars, maxLines);
      PlaceFirst(at, pieces, maxChars, maxLines);
      if |at.lines| + 1 != maxLines {
        PlaceIsPieces(clean, word, maxChars, maxLines);
        PlaceFirst(clean, pieces, maxChars, maxLines);
      } else {
        FullStays(Layout(clean.lines, "", true), pieces[1..], maxChars, maxLines);
      }
    } else {
      var rest, full := word[maxChars..], Layout(at.lines, word[..maxChars], false);
      var next, left := Layout(at.lines + [word[..maxChars]], "", false), Pieces(word[maxChars..], maxChars);
      CutPlaces(at.lines, word, maxChars, maxLines);
      assert at == Layout(at.lines, "", false) && pieces[0] == word[..maxChars] && pieces[1..] == left;
      PlaceFirst(at, pieces, maxChars, maxLines);
      FullLinePlaces(at.lines, word[..maxChars], left[0], maxChars, maxLines);
      PlaceFirst(full, left, maxChars, maxLines);
      if |at.lines| + 1 != maxLines {
        PlaceIsPieces(next, rest, maxChars, maxLines);
        PlaceFirst(next, left, maxChars, maxLines);
      } else {
        FullStays(Layout(next.lines, "", true), left[1..], maxChars, maxLines);
      }
    }
  }

  lemma {:induction false} PlaceAllIsPieces(at: Layout, words: seq<string>, maxChars: nat, maxLines: nat)
    requires maxChars > 0 && (!at.full ==> Open(at, maxChars, maxLines)) && AreWords(words)
    ensures PlaceAll(at, words, maxChars, maxLines) == PlaceAll(at, AllPieces(words, maxChars), maxChars, maxLines)
    decreases |words|
  {
    if words != [] && !at.full {
      assert IsWord(words[0]);
      PlaceIsPieces(at, words[0], maxChars, maxLines);
      PlaceAllIsPieces(Place(at, words[0], maxChars, maxLines), words[1..], maxChars, maxLines);
      PlaceAllJoins(at, Pieces(words[0], maxChars), AllPieces(words[1..], maxChars), maxChars, maxLines);
    }
  }

  /** Wrapping any text is wrapping the pieces of its words, none of which is
    longer than a line.
  */
  lemma WrapCutsIntoPieces(text: string, maxChars: nat, maxLines: nat)
    requires maxChars > 0
    ensures var pieces := AllPieces(Words(text), maxChars);
      && AreWords(pieces) && WordsWithin(pieces, maxChars) && Glued(pieces) == Ink(text)
      && Wrapped(text, maxChars, maxLines) == if pieces == [] then [] else Wrapped(Spelled(pieces), maxChars, maxLines)
  {
    var words, pieces := Words(text), AllPieces(Words(text), maxChars);
    PlaceAllIsPieces(BLANK, words, maxChars, maxLines);
    AllPiecesAreWords(words, maxChars);
    WordsCarryTheInk(text);
  }

  /** For every text: all of it is shown exactly when greedy filling with the
    pieces stays within the lines, which is exactly when some page of that size
    holds the pieces in order.
  */
  lemma ShownExactly(text: string, maxChars: nat, maxLines: nat)
    requires maxChars > 0 && maxLines > 0
    ensures var pieces := AllPieces(Words(text), maxChars);
      && (ShownWhole(text, maxChars, maxLines) <==> LinesFrom(0, pieces, maxChars) <= maxLines)
      && (ShownWhole(text, maxChars, maxLines) <==> exists page :: Legible(page, pieces, maxChars, maxLines))
      && WordsOf(Wrapped(text, maxChars, maxLines)) <= pieces
  {
    var pieces := AllPieces(Words(text), maxChars);
    WrapCutsIntoPieces(text, maxChars, maxLines);
    if pieces == [] {
      assert Legible([], pieces, maxChars, maxLines);
      assert Glued(pieces) == "" == Ink(text);
    } else {
      var spelled := Spelled(pieces);
      WordsCarryTheInk(spelled);
      WholeExactly(spelled, maxChars, maxLines);
      WrapIsOptimal(spelled, maxChars, maxLines);
    }
  }

  lemma {:induction false} PieceCount(word: string, maxChars: nat)
    requires maxChars > 0 && IsWord(word)
    ensures var n := |Pieces(word, maxChars)|;
      (n - 1) * maxChars < |word| <= n * maxChars
    decreases |word|
  {
    if |word| > maxChars {
      PieceCount(word[maxChars..], maxChars);
      var n := |Pieces(word, maxChars)|;
      assert (n - 1) * maxChars == (n - 2) * maxChars + maxChars && n * maxChars == (n - 1) * maxChars + maxChars;
    }
  }

  /** Each piece but the last fills a line. */
  lemma {:induction false} PiecesTakeLines(word: string, maxChars: nat)
    requires maxChars > 0 && IsWord(word)
    ensures LinesFrom(0, Pieces(word, maxChars), maxChars) == |Pieces(word, maxChars)|
    ensures LinesFrom(maxChars, Pieces(word, maxChars), maxChars) == 1 + |Pieces(word, maxChars)|
    decreases |word|
  {
    var pieces := Pieces(word, maxChars);
    PiecesAreWords(word, maxChars);
    if |word| <= maxChars {
      assert pieces == [word];
    } else {
      PiecesTakeLines(word[maxChars..], maxChars);
      assert pieces[1..] == Pieces(word[maxChars..], maxChars);
    }
  }

  /** A word alone is shown whole exactly when the lines have room for its
    characters, however long it is.
  */
  lemma LoneWordExactly(word: string, maxChars: nat, maxLines: nat)
    requires maxLines > 0 && IsWord(word)
    ensures ShownWhole(word, maxChars, maxLines) <==> |word| <= maxChars * maxLines
  {
    LoneWord(word);
    WordIsInk(word);
    if maxChars == 0 {
      NoRoom(word, maxLines);
    } else {
      var pieces := Pieces(word, maxChars);
      assert AllPieces([word], maxChars) == pieces + [] == pieces;
      ShownExactly(word, maxChars, maxLines);
      PiecesTakeLines(word, maxChars);
      PieceCount(word, maxChars);
      CountsCompare(|pieces|, maxLines, |word|, maxChars);
    }
  }

  lemma MoreTimes(a: nat, b: nat, m: nat)
    requires a <= b
    ensures a * m <= b * m
  {
    assert b * m == a * m + (b - a) * m;
  }

  lemma CountsCompare(n: nat, lines: nat, size: nat, maxChars: nat)
    requires n >= 1 && (n - 1) * maxChars < size <= n * maxChars
    ensures n <= lines <==> size <= maxChars * lines
  {
    if n <= lines {
      MoreTimes(n, lines, maxChars);
    } else {
      MoreTimes(lines, n - 1, maxChars);
    }
  }

  lemma NoRoom(word: string, maxLines: nat)
    requires maxLines > 0 && word != ""
    ensures InkOf(Wrapped(word, 0, maxLines)) == ""
  {
    WrapKeepsTheBudgets(word, 0, maxLines);
    EmptyLines(Wrapped(word, 0, maxLines));
  }

  lemma {:induction false} EmptyLines(lines: seq<string>)
    requires forall line :: line in lines ==> |line| == 0
    ensures InkOf(lines) == ""
  {
    if lines != [] {
      EmptyLines(lines[..|lines| - 1]);
    }
  }

  // ---------- where a word is cut ----------

  /** The first `n` letters of the words are whole words. */
  ghost predicate WordBoundary(words: seq<string>, n: nat) {
    exists j :: 0 <= j <= |words| && |Glued(words[..j])| == n
  }

  /** Up to line `k` the page ends inside a word. */
  ghost predicate EndsInsideAWord(words: seq<string>, lines: seq<string>, k: nat)
    requires k < |lines|
  {
    !WordBoundary(words, |InkOf(lines[..k + 1])|)
  }

  ghost predicate CutsAreFull(words: seq<string>, lines: seq<string>, maxChars: nat) {
    forall k :: 0 <= k < |lines| && EndsInsideAWord(words, lines, k) ==> |lines[k]| == maxChars
  }

  lemma OneMoreLineFull(words: seq<string>, lines: seq<string>, line: string, maxChars: nat)
    requires CutsAreFull(words, lines, maxChars)
    requires |line| == maxChars || WordBoundary(words, |InkOf(lines + [line])|)
    ensures CutsAreFull(words, lines + [line], maxChars)
  {
    var longer := lines + [line];
    assert longer[..|longer|] == longer;
    forall k | 0 <= k < |longer| && EndsInsideAWord(words, longer, k) ensures |longer[k]| == maxChars {
      if k < |lines| {
        assert longer[..k + 1] == lines[..k + 1];
        assert EndsInsideAWord(words, lines, k);
      }
    }
  }

  /** Placing a word from a boundary, or what is left of it on a fresh line. */
  lemma {:induction false} PlaceCutsFull(words: seq<string>, at: Layout, word: string, maxChars: nat, maxLines: nat)
    requires Budgets(maxChars, maxLines) && Open(at, maxChars, maxLines) && Solid(word)
    requires CutsAreFull(words, at.lines, maxChars)
    requires at.current == "" || WordBoundary(words, |LaidInk(at)|)
    ensures CutsAreFull(words, Place(at, word, maxChars, maxLines).lines, maxChars)
    decreases |word|, |at.current|, maxLines - |at.lines|
  {
    var needed := |at.current| + (if at.current == "" then 0 else 1) + |word|;
    if needed > maxChars && at.current != "" {
      ClosingKeepsInk(at);
      OneMoreLineFull(words, at.lines, at.current, maxChars);
      if |at.lines| + 1 != maxLines {
        PlaceCutsFull(words, Layout(at.lines + [at.current], "", false), word, maxChars, maxLines);
      }
    } else if |word| > maxChars {
      OneMoreLineFull(words, at.lines, word[..maxChars], maxChars);
      if |at.lines| + 1 != maxLines {
        PlaceCutsFull(words, at.(lines := at.lines + [word[..maxChars]]), word[maxChars..], maxChars, maxLines);
      }
    }
  }

  lemma GluedOneMore(words: seq<string>, done: nat)
    requires done < |words|
    ensures Glued(words[..done + 1]) == Glued(words[..done]) + words[done]
    ensures WordBoundary(words, |Glued(words[..done])|)
  {
    assert words[..done + 1] == words[..done] + [words[done]];
    GluedJoins(words[..done], [words[done]]);
    assert Glued([words[done]]) == words[done] + Glued([words[done]][1..]) == words[done];
  }

  lemma {:induction false} PlaceAllCutsFull(words: seq<string>, at: Layout, done: nat, maxChars: nat, maxLines: nat)
    requires Budgets(maxChars, maxLines) && Open(at, maxChars, maxLines) && AreWords(words) && done <= |words|
    requires CutsAreFull(words, at.lines, maxChars) && LaidInk(at) == Glued(words[..done])
    ensures var r := PlaceAll(at, words[done..], maxChars, maxLines);
      CutsAreFull(words, r.lines, maxChars) && (!r.full ==> LaidInk(r) == Glued(words))
    decreases |words| - done
  {
    if done == |words| {
      assert words[..|words|] == words;
    } else {
      var word := words[done];
      var next := Place(at, word, maxChars, maxLines);
      assert words[done..][0] == word && words[done..][1..] == words[done + 1..];
      assert CutsAreFull(words, next.lines, maxChars) by {
        GluedOneMore(words, done);
        PlaceCutsFull(words, at, word, maxChars, maxLines);
      }
      if !next.full {
        assert LaidInk(next) == Glued(words[..done + 1]) by {
          GluedOneMore(words, done);
          PlaceKeepsInk(at, word, maxChars, maxLines);
        }
        PlaceAllCutsFull(words, next, done + 1, maxChars, maxLines);
      }
    }
  }

  /** For every text and budget a line that ends inside a word is full: a word
    is cut only at the end of a line it fills.
  */
  lemma CutLinesAreFull(text: string, maxChars: nat, maxLines: nat)
    requires Budgets(maxChars, maxLines)
    ensures CutsAreFull(Words(text), Wrapped(text, maxChars, maxLines), maxChars)
  {
    var words := Words(text);
    var at := PlaceAll(BLANK, words, maxChars, maxLines);
    assert words[0..] == words && LaidInk(BLANK) == "" == Glued(words[..0]);
    PlaceAllCutsFull(words, BLANK, 0, maxChars, maxLines);
    if !at.full && at.current != "" && |at.lines| < maxLines {
      InkOfAppends(at.lines, at.current);
      assert words[..|words|] == words;
      assert WordBoundary(words, |Glued(words)|);
      OneMoreLineFull(words, at.lines, at.current, maxChars);
    }
  }
}

/** Word wrapping for the 128-pixel panel (badge-screen/src/lib.rs, `wrap`). */
module TextWrap {
  import opened Whitespace

  const PROMPT_CHARS: nat := 31
  const PROMPT_LINES: nat := 3
  const MAX_PROMPT_CHARS: nat := 68
  const ANSWER_LABEL_CHARS: nat := 11
  const ANSWER_LABEL_LINES: nat := 2
  const MAX_ANSWER_CHARS: nat := 20

  // ---------- text, words and ink ----------

  predicate Solid(text: string) {
    forall k :: 0 <= k < |text| ==> !IsSpace(text[k])
  }

  /** A non-empty run without spaces. */
  predicate IsWord(word: string) {
    word != "" && Solid(word)
  }

  predicate AreWords(words: seq<string>) {
    forall k :: 0 <= k < |words| ==> IsWord(words[k])
  }

  function WordEnd(text: string): (end: nat)
    ensures end <= |text| && (end < |text| ==> IsSpace(text[end]))
    ensures forall k :: 0 <= k < end ==> !IsSpace(text[k])
  {
    if text == "" || IsSpace(text[0]) then 0 else 1 + WordEnd(text[1..])
  }

  /** `split_whitespace`. */
  function Words(text: string): (words: seq<string>)
    ensures AreWords(words)
    decreases |text|
  {
    if text == "" then []
    else if IsSpace(text[0]) then Words(text[1..])
    else [text[..WordEnd(text)]] + Words(text[WordEnd(text)..])
  }

  function InkOfChar(c: char): string {
    if IsSpace(c) then "" else [c]
  }

  /** What is left of a text without its spaces. */
  function Ink(text: string): string {
    if text == "" then "" else InkOfChar(text[0]) + Ink(text[1..])
  }

  function InkOf(lines: seq<string>): string {
    if lines == [] then "" else InkOf(lines[..|lines| - 1]) + Ink(lines[|lines| - 1])
  }

  function WordsOf(lines: seq<string>): (words: seq<string>)
    ensures AreWords(words)
  {
    if lines == [] then [] else WordsOf(lines[..|lines| - 1]) + Words(lines[|lines| - 1])
  }

  lemma {:induction false} InkJoins(a: string, b: string)
    ensures Ink(a + b) == Ink(a) + Ink(b)
  {
    if a == "" {
      assert a + b == b;
    } else {
      var head := InkOfChar(a[0]);
      InkJoins(a[1..], b);
      assert (a + b)[1..] == a[1..] + b && (a + b)[0] == a[0];
      Associates(head, Ink(a[1..]), Ink(b));
    }
  }

  lemma Associates<T>(a: seq<T>, b: seq<T>, c: seq<T>)
    ensures a + (b + c) == (a + b) + c
  {
  }

  lemma {:induction false} WordIsInk(word: string)
    requires Solid(word)
    ensures Ink(word) == word
  {
    if word != "" {
      WordIsInk(word[1..]);
    }
  }

  function Glued(words: seq<string>): string {
    if words == [] then "" else words[0] + Glued(words[1..])
  }

  lemma InkBehind(word: string, rest: string)
    requires Solid(word)
    ensures Ink(word + rest) == word + Ink(rest)
  {
    InkJoins(word, rest);
    WordIsInk(word);
  }

  lemma GluedBehind(word: string, rest: seq<string>)
    ensures Glued([word] + rest) == word + Glued(rest)
  {
    assert ([word] + rest)[1..] == rest;
  }

  lemma {:induction false} WordsCarryTheInk(text: string)
    ensures Glued(Words(text)) == Ink(text)
    decreases |text|
  {
    if text != "" {
      if IsSpace(text[0]) {
        WordsCarryTheInk(text[1..]);
      } else {
        var word, rest := text[..WordEnd(text)], text[WordEnd(text)..];
        WordsCarryTheInk(rest);
        assert text == word + rest;
        InkBehind(word, rest);
        GluedBehind(word, Words(rest));
      }
    }
  }

  // ---------- the algorithm ----------

  datatype Layout = Layout(lines: seq<string>, current: string, full: bool)

  const BLANK := Layout([], "", false)

  /** The source needs one of the budgets to be positive: with neither, a word
    is cut into empty lines for ever.
  */
  predicate Budgets(maxChars: nat, maxLines: nat) {
    maxChars > 0 || maxLines > 0
  }

  predicate Open(at: Layout, maxChars: nat, maxLines: nat) {
    && !at.full
    && |at.current| <= maxChars
    && (maxLines == 0 || |at.lines| < maxLines)
  }

  /** The line with one more word. */
  function Joined(current: string, word: string): (line: string)
    ensures |line| == |current| + (if current == "" then 0 else 1) + |word|
  {
    if current == "" then word else current + " " + word
  }

  /** Places one word, or what is left of it. */
  function Place(at: Layout, word: string, maxChars: nat, maxLines: nat): (r: Layout)
    requires Budgets(maxChars, maxLines) && Open(at, maxChars, maxLines)
    ensures !r.full ==> Open(r, maxChars, maxLines)
    ensures r.full ==> |r.lines| == maxLines
    ensures (forall line :: line in at.lines ==> |line| <= maxChars) ==> forall line :: line in r.lines ==> |line| <= maxChars
    decreases |word|, |at.current|, maxLines - |at.lines|
  {
    var needed := |at.current| + (if at.current == "" then 0 else 1) + |word|;
    if needed > maxChars && at.current != "" then
      var lines := at.lines + [at.current];
      if |lines| == maxLines then Layout(lines, "", true) else Place(Layout(lines, "", false), word, maxChars, maxLines)
    else if |word| > maxChars then
      var lines := at.lines + [word[..maxChars]];
      if |lines| == maxLines then Layout(lines, at.current, true)
      else Place(at.(lines := lines), word[maxChars..], maxChars, maxLines)
    else at.(current := Joined(at.current, word))
  }

  function PlaceAll(at: Layout, words: seq<string>, maxChars: nat, maxLines: nat): (r: Layout)
    requires Budgets(maxChars, maxLines) && (!at.full ==> Open(at, maxChars, maxLines))
    ensures !r.full ==> Open(r, maxChars, maxLines)
    ensures !at.full && r.full ==> |r.lines| == maxLines
    ensures (forall line :: line in at.lines ==> |line| <= maxChars) ==> forall line :: line in r.lines ==> |line| <= maxChars
    decreases |words|
  {
    if at.full || words == [] then at
    else PlaceAll(Place(at, words[0], maxChars, maxLines), words[1..], maxChars, maxLines)
  }

  function Closing(at: Layout, maxLines: nat): seq<string> {
    if !at.full && at.current != "" && |at.lines| < maxLines then at.lines + [at.current] else at.lines
  }

  function Wrapped(text: string, maxChars: nat, maxLines: nat): seq<string>
    requires Budgets(maxChars, maxLines)
  {
    Closing(PlaceAll(BLANK, Words(text), maxChars, maxLines), maxLines)
  }

  method Wrap(text: string, maxChars: nat, maxLines: nat) returns (lines: seq<string>)
    requires Budgets(maxChars, maxLines)
    ensures lines == Wrapped(text, maxChars, maxLines)
  {
    lines := [];
    var current := "";
    var words := Words(text);
    for i := 0 to |words|
      invariant Open(Layout(lines, current, false), maxChars, maxLines)
      invariant PlaceAll(BLANK, words, maxChars, maxLines)
             == PlaceAll(Layout(lines, current, false), words[i..], maxChars, maxLines)
    {
      var remaining := words[i];
      while true
        invariant Open(Layout(lines, current, false), maxChars, maxLines)
        invariant PlaceAll(BLANK, words, maxChars, maxLines)
               == PlaceAll(Place(Layout(lines, current, false), remaining, maxChars, maxLines), words[i + 1..], maxChars, maxLines)
        decreases |remaining|, |current|, maxLines - |lines|
      {
        var needed := |current| + (if current == "" then 0 else 1) + |remaining|;
        if needed > maxChars && current != "" {
          lines, current := lines + [current], "";
          if |lines| == maxLines { return; }
          continue;
        }
        if |remaining| > maxChars {
          lines := lines + [remaining[..maxChars]];
          if |lines| == maxLines { return; }
          remaining := remaining[maxChars..];
          continue;
        }
        ghost var line := current;
        if current != "" { current := current + " "; }
        current := current + remaining;
        assert current == Joined(line, remaining);
        break;
      }
    }
    if current != "" && |lines| < maxLines { lines := lines + [current]; }
  }

  // ---------- the budgets, and nothing invented ----------

  /** Both budgets hold. */
  lemma WrapKeepsTheBudgets(text: string, maxChars: nat, maxLines: nat)
    requires maxLines > 0
    ensures var lines := Wrapped(text, maxChars, maxLines);
      |lines| <= maxLines && forall line :: line in lines ==> |line| <= maxChars
  {
    var at := PlaceAll(BLANK, Words(text), maxChars, maxLines);
    assert forall line :: line in at.lines ==> |line| <= maxChars;
  }

  function LaidInk(at: Layout): string {
    InkOf(at.lines) + Ink(at.current)
  }

  lemma InkOfAppends(lines: seq<string>, line: string)
    ensures InkOf(lines + [line]) == InkOf(lines) + Ink(line)
  {
    assert (lines + [line])[..|lines|] == lines;
  }

  /** The three moves of `Place` keep the ink: the line is closed, a word is
    cut, or a word joins the line.
  */
  lemma ClosingKeepsInk(at: Layout)
    ensures InkOf(at.lines + [at.current]) == LaidInk(at)
    ensures LaidInk(Layout(at.lines + [at.current], "", false)) == LaidInk(at)
  {
    InkOfAppends(at.lines, at.current);
  }

  lemma CutKeepsInk(at: Layout, word: string, cut: nat)
    requires at.current == "" && cut <= |word| && Solid(word)
    ensures LaidInk(at.(lines := at.lines + [word[..cut]])) + word[cut..] == LaidInk(at) + word
    ensures InkOf(at.lines + [word[..cut]]) <= LaidInk(at) + word
  {
    var head, tail := word[..cut], word[cut..];
    BlankLineInk(at);
    BlankLineInk(at.(lines := at.lines + [head]));
    InkOfAppends(at.lines, head);
    WordIsInk(head);
    SplitOnto(InkOf(at.lines), word, cut);
  }

  lemma BlankLineInk(at: Layout)
    requires at.current == ""
    ensures LaidInk(at) == InkOf(at.lines)
  {
    NothingAfter(InkOf(at.lines));
  }

  lemma NothingAfter<T>(s: seq<T>)
    ensures s + [] == s
  {
  }

  lemma SplitOnto<T>(before: seq<T>, s: seq<T>, cut: nat)
    requires cut <= |s|
    ensures before + s[..cut] + s[cut..] == before + s
    ensures before + s[..cut] <= before + s
  {
    assert s == s[..cut] + s[cut..];
    Associates(before, s[..cut], s[cut..]);
  }

  lemma InkOfSpace(line: string)
    ensures Ink(line + " ") == Ink(line)
  {
    InkJoins(line, " ");
    assert Ink(" ") == "";
    NothingAfter(Ink(line));
  }

  lemma InkJoined(line: string, word: string)
    requires Solid(word)
    ensures Ink(Joined(line, word)) == Ink(line) + word
  {
    WordIsInk(word);
    if line == "" {
      assert "" + word == word;
    } else {
      InkJoins(line + " ", word);
      InkOfSpace(line);
    }
  }

  lemma JoiningKeepsInk(at: Layout, word: string)
    requires Solid(word)
    ensures LaidInk(at.(current := Joined(at.current, word))) == LaidInk(at) + word
  {
    InkJoined(at.current, word);
    Associates(InkOf(at.lines), Ink(at.current), word);
  }

  lemma {:induction false} PlaceKeepsInk(at: Layout, word: string, maxChars: nat, maxLines: nat)
    requires Budgets(maxChars, maxLines) && Open(at, maxChars, maxLines)
    requires Solid(word)
    ensures var r := Place(at, word, maxChars, maxLines);
      if r.full then InkOf(r.lines) <= LaidInk(at) + word else LaidInk(r) == LaidInk(at) + word
    decreases |word|, |at.current|, maxLines - |at.lines|
  {
    var needed := |at.current| + (if at.current == "" then 0 else 1) + |word|;
    if needed > maxChars && at.current != "" {
      var next := Layout(at.lines + [at.current], "", false);
      assert InkOf(next.lines) == LaidInk(next) == LaidInk(at) by {
        ClosingKeepsInk(at);
      }
      if |next.lines| != maxLines {
        PlaceKeepsInk(next, word, maxChars, maxLines);
      }
    } else if |word| > maxChars {
      var next := at.(lines := at.lines + [word[..maxChars]]);
      assert LaidInk(next) + word[maxChars..] == LaidInk(at) + word && InkOf(next.lines) <= LaidInk(at) + word by {
        CutKeepsInk(at, word, maxChars);
      }
      if |next.lines| != maxLines {
        PlaceKeepsInk(next, word[maxChars..], maxChars, maxLines);
      }
    } else {
      JoiningKeepsInk(at, word);
    }
  }

  lemma PrefixExtends<T>(shown: seq<T>, a: seq<T>, b: seq<T>)
    requires shown <= a
    ensures shown <= a + b
  {
  }

  lemma {:induction false} PlaceAllKeepsInk(at: Layout, words: seq<string>, maxChars: nat, maxLines: nat)
    requires Budgets(maxChars, maxLines) && Open(at, maxChars, maxLines)
    requires AreWords(words)
    ensures var r := PlaceAll(at, words, maxChars, maxLines);
      if r.full then InkOf(r.lines) <= LaidInk(at) + Glued(words) else LaidInk(r) == LaidInk(at) + Glued(words)
    decreases |words|
  {
    if words == [] {
      NothingAfter(LaidInk(at));
    } else {
      var next, rest := Place(at, words[0], maxChars, maxLines), words[1..];
      assert AreWords(rest) && IsWord(words[0]);
      PlaceKeepsInk(at, words[0], maxChars, maxLines);
      Associates(LaidInk(at), words[0], Glued(rest));
      if next.full {
        PrefixExtends(InkOf(next.lines), LaidInk(at) + words[0], Glued(rest));
      } else {
        PlaceAllKeepsInk(next, rest, maxChars, maxLines);
      }
    }
  }

  lemma ClosingInk(at: Layout, maxLines: nat)
    ensures InkOf(Closing(at, maxLines)) <= LaidInk(at)
    ensures !at.full && |at.lines| < maxLines ==> InkOf(Closing(at, maxLines)) == LaidInk(at)
  {
    InkOfAppends(at.lines, at.current);
  }

  lemma PlacedInk(text: string, maxChars: nat, maxLines: nat)
    requires Budgets(maxChars, maxLines)
    ensures var at := PlaceAll(BLANK, Words(text), maxChars, maxLines);
      if at.full then InkOf(at.lines) <= Ink(text) else LaidInk(at) == Ink(text)
  {
    PlaceAllKeepsInk(BLANK, Words(text), maxChars, maxLines);
    assert LaidInk(BLANK) == "" && "" + Glued(Words(text)) == Glued(Words(text));
    WordsCarryTheInk(text);
  }

  /** The lines spell a prefix of the text's ink, and all of it when fewer
    lines come back than were allowed.
  */
  lemma WrapShowsAPrefix(text: string, maxChars: nat, maxLines: nat)
    requires Budgets(maxChars, maxLines)
    ensures var lines := Wrapped(text, maxChars, maxLines);
      && InkOf(lines) <= Ink(text)
      && (|lines| < maxLines ==> InkOf(lines) == Ink(text))
  {
    PlacedInk(text, maxChars, maxLines);
    ClosingInk(PlaceAll(BLANK, Words(text), maxChars, maxLines), maxLines);
  }

  // ---------- whole words on the fewest lines ----------

  predicate WordsWithin(words: seq<string>, limit: nat) {
    forall k :: 0 <= k < |words| ==> |words[k]| <= limit
  }

  /** The lines greedy filling takes when `used` characters are already on the
    current one.
  */
  function LinesFrom(used: nat, words: seq<string>, maxChars: nat): (n: nat)
    ensures used > 0 ==> n > 0
    decreases |words|
  {
    if words == [] then (if used == 0 then 0 else 1)
    else if used == 0 then LinesFrom(|words[0]|, words[1..], maxChars)
    else if used + 1 + |words[0]| > maxChars then 1 + LinesFrom(|words[0]|, words[1..], maxChars)
    else LinesFrom(used + 1 + |words[0]|, words[1..], maxChars)
  }

  lemma {:induction false} WordSplitsOff(line: string, word: string)
    requires IsWord(word)
    ensures Words(line + " " + word) == Words(line) + [word]
    decreases |line|
  {
    var joined := line + " " + word;
    if line == "" {
      assert joined[1..] == word;
      LoneWord(word);
    } else if IsSpace(line[0]) {
      assert joined[1..] == line[1..] + " " + word;
      WordSplitsOff(line[1..], word);
    } else {
      var end := WordEnd(line);
      WordEndIs(joined, end);
      assert joined[..end] == line[..end];
      assert joined[end..] == line[end..] + " " + word;
      WordSplitsOff(line[end..], word);
    }
  }

  lemma {:induction false} WordEndIs(text: string, end: nat)
    requires end <= |text| && (end < |text| ==> IsSpace(text[end]))
    requires forall k :: 0 <= k < end ==> !IsSpace(text[k])
    ensures WordEnd(text) == end
  {
    if end > 0 {
      WordEndIs(text[1..], end - 1);
    }
  }

  lemma LoneWord(word: string)
    requires IsWord(word)
    ensures Words(word) == [word]
  {
    WordEndIs(word, |word|);
    assert word[..|word|] == word && word[|word|..] == "";
  }

  lemma JoiningAddsTheWord(line: string, word: string)
    requires IsWord(word)
    ensures Words(Joined(line, word)) == Words(line) + [word]
  {
    if line == "" {
      LoneWord(word);
    } else {
      WordSplitsOff(line, word);
    }
  }

  lemma WordsOfAppends(lines: seq<string>, line: string)
    ensures WordsOf(lines + [line]) == WordsOf(lines) + Words(line)
  {
    assert (lines + [line])[..|lines|] == lines;
  }

  function LaidWords(at: Layout): seq<string> {
    WordsOf(at.lines) + Words(at.current)
  }

  predicate Overflows(at: Layout, word: string, maxChars: nat) {
    at.current != "" && |at.current| + 1 + |word| > maxChars
  }

  /** One word that fits a line. */
  lemma PlaceFitting(at: Layout, word: string, maxChars: nat, maxLines: nat)
    requires maxLines > 0 && Open(at, maxChars, maxLines) && |word| <= maxChars
    ensures Place(at, word, maxChars, maxLines) ==
      if !Overflows(at, word, maxChars) then at.(current := Joined(at.current, word))
      else if |at.lines| + 1 == maxLines then Layout(at.lines + [at.current], "", true)
      else Layout(at.lines + [at.current], word, false)
  {
  }

  lemma PlaceKeepsWords(at: Layout, word: string, maxChars: nat, maxLines: nat)
    requires maxLines > 0 && Open(at, maxChars, maxLines)
    requires IsWord(word) && |word| <= maxChars
    ensures var r := Place(at, word, maxChars, maxLines);
      if r.full then WordsOf(r.lines) == LaidWords(at) else LaidWords(r) == LaidWords(at) + [word]
  {
    PlaceFitting(at, word, maxChars, maxLines);
    WordsOfAppends(at.lines, at.current);
    JoiningAddsTheWord(at.current, word);
    LoneWord(word);
  }

  /** The page fills up exactly when greedy filling needs more lines. */
  lemma {:induction false} PageFillsExactly(at: Layout, words: seq<string>, maxChars: nat, maxLines: nat)
    requires maxLines > 0 && Open(at, maxChars, maxLines) && AreWords(words) && WordsWithin(words, maxChars)
    ensures PlaceAll(at, words, maxChars, maxLines).full
        <==> |at.lines| + LinesFrom(|at.current|, words, maxChars) > maxLines
    decreases |words|
  {
    if words != [] {
      PlaceFitting(at, words[0], maxChars, maxLines);
      var next := Place(at, words[0], maxChars, maxLines);
      if !next.full {
        PageFillsExactly(next, words[1..], maxChars, maxLines);
      }
    }
  }

  /** And then a word is left over. */
  lemma {:induction false} PlaceAllKeepsWords(at: Layout, words: seq<string>, maxChars: nat, maxLines: nat)
    requires maxLines > 0 && Open(at, maxChars, maxLines)
    requires AreWords(words) && WordsWithin(words, maxChars)
    ensures var r := PlaceAll(at, words, maxChars, maxLines);
      if r.full then WordsOf(r.lines) < LaidWords(at) + words else LaidWords(r) == LaidWords(at) + words
    decreases |words|
  {
    if words != [] {
      var word, rest := words[0], words[1..];
      var next := Place(at, word, maxChars, maxLines);
      PlaceKeepsWords(at, word, maxChars, maxLines);
      if !next.full {
        PlaceAllKeepsWords(next, rest, maxChars, maxLines);
      }
      Regroup(LaidWords(at), words);
    }
  }

  lemma Regroup<T>(before: seq<T>, s: seq<T>)
    requires s != []
    ensures before + s == before + [s[0]] + s[1..] && before < before + s
  {
  }

  lemma {:induction false} InkIsWords(lines: seq<string>)
    ensures InkOf(lines) == Glued(WordsOf(lines))
  {
    if lines != [] {
      var last := |lines| - 1;
      InkIsWords(lines[..last]);
      WordsCarryTheInk(lines[last]);
      GluedJoins(WordsOf(lines[..last]), Words(lines[last]));
    }
  }

  lemma {:induction false} GluedJoins(a: seq<string>, b: seq<string>)
    ensures Glued(a + b) == Glued(a) + Glued(b)
  {
    if a == [] {
      assert a + b == b;
    } else {
      GluedJoins(a[1..], b);
      assert (a + b)[1..] == a[1..] + b;
      assert a[0] + (Glued(a[1..]) + Glued(b)) == (a[0] + Glued(a[1..])) + Glued(b);
    }
  }

  /** Every letter of the text is on the page. */
  predicate ShownWhole(text: string, maxChars: nat, maxLines: nat)
    requires maxLines > 0
  {
    InkOf(Wrapped(text, maxChars, maxLines)) == Ink(text)
  }

  /** Without words to cut, a page shows everything exactly when greedy filling
    stays within it; every word is then unbroken and in order.
  */
  lemma WholeExactly(text: string, maxChars: nat, maxLines: nat)
    requires maxLines > 0 && WordsWithin(Words(text), maxChars)
    ensures ShownWhole(text, maxChars, maxLines) <==> LinesFrom(0, Words(text), maxChars) <= maxLines
    ensures ShownWhole(text, maxChars, maxLines) <==> WordsOf(Wrapped(text, maxChars, maxLines)) == Words(text)
    ensures WordsOf(Wrapped(text, maxChars, maxLines)) <= Words(text)
  {
    var words, lines := Words(text), Wrapped(text, maxChars, maxLines);
    assert WordsOf(lines) <= words && (WordsOf(lines) == words <==> LinesFrom(0, words, maxChars) <= maxLines) by {
      var at := PlaceAll(BLANK, words, maxChars, maxLines);
      PlaceAllKeepsWords(BLANK, words, maxChars, maxLines);
      PageFillsExactly(BLANK, words, maxChars, maxLines);
      assert LaidWords(BLANK) + words == words;
      WordsOfAppends(at.lines, at.current);
    }
    assert InkOf(lines) == Glued(WordsOf(lines)) && Ink(text) == Glued(words) by {
      WordsCarryTheInk(text);
      InkIsWords(lines);
    }
    PrefixIsWhole(WordsOf(lines), words);
  }

  /** A prefix with all the letters is everything. */
  lemma PrefixIsWhole(shown: seq<string>, words: seq<string>)
    requires shown <= words && AreWords(words)
    ensures Glued(shown) == Glued(words) <==> shown == words
  {
    var rest := words[|shown|..];
    assert words == shown + rest;
    GluedJoins(shown, rest);
    if rest != [] {
      assert IsWord(rest[0]) && Glued(rest) != "";
    }
  }

  // ---------- greedy filling is optimal ----------

  /** The characters words take, each with the space before it. */
  function Weight(words: seq<string>): nat {
    if words == [] then 0 else 1 + |words[0]| + Weight(words[1..])
  }

  lemma {:induction false} WeightOfText(text: string)
    ensures Weight(Words(text)) <= |text| + 1
    decreases |text|
  {
    if text != "" {
      if IsSpace(text[0]) {
        WeightOfText(text[1..]);
      } else {
        var rest := text[WordEnd(text)..];
        if rest != "" {
          WeightOfText(rest[1..]);
        }
      }
    }
  }

  /** A fuller line never saves a line and costs at most one more. */
  lemma {:induction false} FullerLine(a: nat, b: nat, words: seq<string>, maxChars: nat)
    requires 0 < a <= b && AreWords(words)
    ensures LinesFrom(a, words, maxChars) <= LinesFrom(b, words, maxChars) <= LinesFrom(a, words, maxChars) + 1
    decreases |words|
  {
    if words != [] {
      var word, rest := words[0], words[1..];
      if b + 1 + |word| <= maxChars {
        FullerLine(a + 1 + |word|, b + 1 + |word|, rest, maxChars);
      } else if a + 1 + |word| <= maxChars {
        FullerLine(|word|, a + 1 + |word|, rest, maxChars);
      }
    }
  }

  lemma StartingFresh(used: nat, words: seq<string>, maxChars: nat)
    requires AreWords(words)
    ensures LinesFrom(used, words, maxChars) <= LinesFrom(0, words, maxChars) + 1
  {
    if words != [] && 0 < used && used + 1 + |words[0]| <= maxChars {
      FullerLine(|words[0]|, used + 1 + |words[0]|, words[1..], maxChars);
    }
  }

  lemma {:induction false} OneLineHolds(used: nat, words: seq<string>, maxChars: nat)
    requires if used == 0 then Weight(words) <= maxChars + 1 else used + Weight(words) <= maxChars
    requires AreWords(words)
    ensures LinesFrom(used, words, maxChars) <= 1
    decreases |words|
  {
    if words != [] {
      OneLineHolds(if used == 0 then |words[0]| else used + 1 + |words[0]|, words[1..], maxChars);
    }
  }

  lemma {:induction false} OneMoreLine(used: nat, words: seq<string>, more: seq<string>, maxChars: nat)
    requires AreWords(words) && AreWords(more) && Weight(more) <= maxChars + 1
    ensures LinesFrom(used, words + more, maxChars) <= LinesFrom(used, words, maxChars) + 1
    decreases |words|
  {
    if words == [] {
      assert words + more == more;
      StartingFresh(used, more, maxChars);
      OneLineHolds(0, more, maxChars);
      if used > 0 {
        assert LinesFrom(used, more, maxChars) <= 2;
      }
    } else {
      var width := |words[0]|;
      assert (words + more)[1..] == words[1..] + more;
      OneMoreLine(if used == 0 || used + 1 + width > maxChars then width else used + 1 + width, words[1..], more, maxChars);
    }
  }

  /** However the words are put on lines, greedy filling takes no more lines. */
  lemma {:induction false} GreedyTakesFewest(page: seq<string>, maxChars: nat)
    requires forall k :: 0 <= k < |page| ==> |page[k]| <= maxChars
    ensures LinesFrom(0, WordsOf(page), maxChars) <= |page|
  {
    if page != [] {
      var last := |page| - 1;
      GreedyTakesFewest(page[..last], maxChars);
      WeightOfText(page[last]);
      OneMoreLine(0, WordsOf(page[..last]), Words(page[last]), maxChars);
    }
  }

  ghost predicate Legible(page: seq<string>, words: seq<string>, maxChars: nat, maxLines: nat) {
    && |page| <= maxLines
    && (forall k :: 0 <= k < |page| ==> |page[k]| <= maxChars)
    && WordsOf(page) == words
  }

  /** Wrapping shows the whole text exactly when there is any way at all to
    write its words on that many lines of that width.
  */
  lemma WrapIsOptimal(text: string, maxChars: nat, maxLines: nat)
    requires maxLines > 0 && WordsWithin(Words(text), maxChars)
    ensures ShownWhole(text, maxChars, maxLines) <==> exists page :: Legible(page, Words(text), maxChars, maxLines)
  {
    WholeExactly(text, maxChars, maxLines);
    if page :| Legible(page, Words(text), maxChars, maxLines) {
      GreedyTakesFewest(page, maxChars);
    }
    if ShownWhole(text, maxChars, maxLines) {
      WrapKeepsTheBudgets(text, maxChars, maxLines);
      assert Legible(Wrapped(text, maxChars, maxLines), Words(text), maxChars, maxLines);
    }
  }

  // ---------- which texts are sure to be shown whole ----------

  /** The least length that can overflow `lines` lines of `maxChars` when no
    word is longer than `longest`: each line but the last is left short.
  */
  function SpillLength(lines: nat, maxChars: nat, longest: nat): nat
    requires longest <= maxChars
  {
    if lines <= 1 then maxChars + 1 else maxChars - longest + 1 + SpillLength(lines - 1, maxChars, longest)
  }

  lemma {:induction false} OverflowTakesLength(used: nat, words: seq<string>, lines: nat, maxChars: nat, longest: nat)
    requires 0 < used && 0 < lines && longest <= maxChars && AreWords(words) && WordsWithin(words, longest)
    requires LinesFrom(used, words, maxChars) > lines
    ensures used + Weight(words) >= SpillLength(lines, maxChars, longest)
    decreases |words|
  {
    var word, rest := words[0], words[1..];
    if used + 1 + |word| <= maxChars {
      OverflowTakesLength(used + 1 + |word|, rest, lines, maxChars, longest);
    } else if lines > 1 {
      OverflowTakesLength(|word|, rest, lines - 1, maxChars, longest);
    }
  }

  /** Any text shorter than that is shown whole. */
  lemma ShortTextsAreWhole(text: string, maxChars: nat, maxLines: nat, longest: nat)
    requires maxLines > 0 && longest <= maxChars && WordsWithin(Words(text), longest)
    requires |text| < SpillLength(maxLines, maxChars, longest)
    ensures ShownWhole(text, maxChars, maxLines)
  {
    var words := Words(text);
    WholeExactly(text, maxChars, maxLines);
    if words != [] && LinesFrom(0, words, maxChars) > maxLines {
      WeightOfText(text);
      OverflowTakesLength(|words[0]|, words[1..], maxLines, maxChars, longest);
    }
  }

  /** Words with single spaces between them. */
  function Spelled(words: seq<string>): (text: string)
    requires words != [] && AreWords(words)
    ensures |text| + 1 == Weight(words) && Words(text) == words
    decreases |words|
  {
    var last := |words| - 1;
    if last == 0 then
      LoneWord(words[0]);
      words[0]
    else
      WordSplitsOff(Spelled(words[..last]), words[last]);
      WeightOfLast(words);
      Spelled(words[..last]) + " " + words[last]
  }

  lemma {:induction false} WeightOfLast(words: seq<string>)
    requires words != []
    ensures Weight(words) == Weight(words[..|words| - 1]) + 1 + |words[|words| - 1]|
  {
    if |words| > 1 {
      WeightOfLast(words[1..]);
      assert words[1..][..|words| - 2] == words[..|words| - 1][1..];
    }
  }

  /** The word length up to which every text of `room` characters is sure to
    be shown whole.
  */
  ghost predicate SureWithin(limit: nat, room: nat, maxChars: nat, maxLines: nat)
    requires maxLines > 0
  {
    forall text :: |text| <= room && WordsWithin(Words(text), limit) ==> ShownWhole(text, maxChars, maxLines)
  }

  /** One more word in front. */
  lemma InFront(used: nat, word: string, rest: seq<string>, maxChars: nat)
    requires IsWord(word) && AreWords(rest)
    ensures AreWords([word] + rest) && Weight([word] + rest) == 1 + |word| + Weight(rest)
    ensures LinesFrom(used, [word] + rest, maxChars) ==
      if used == 0 then LinesFrom(|word|, rest, maxChars)
      else if used + 1 + |word| > maxChars then 1 + LinesFrom(|word|, rest, maxChars)
      else LinesFrom(used + 1 + |word|, rest, maxChars)
  {
    assert ([word] + rest)[1..] == rest;
  }

  function Run(n: nat): (word: string)
    requires n > 0
    ensures IsWord(word) && |word| == n
  {
    seq(n, _ => 'a')
  }

  lemma PromptWords() returns (words: seq<string>)
    ensures words != [] && AreWords(words) && WordsWithin(words, 14)
    ensures Weight(words) == MAX_PROMPT_CHARS + 1 && LinesFrom(0, words, PROMPT_CHARS) == 4
  {
    var a, b := Run(14), Run(2);
    var third := [b] + ([a] + []);
    var second := [b] + ([a] + third);
    words := [a] + ([b] + ([a] + second));
    InFront(17, a, [], PROMPT_CHARS);
    InFront(14, b, [a] + [], PROMPT_CHARS);
    InFront(17, a, third, PROMPT_CHARS);
    InFront(14, b, [a] + third, PROMPT_CHARS);
    InFront(17, a, second, PROMPT_CHARS);
    InFront(14, b, [a] + second, PROMPT_CHARS);
    InFront(0, a, [b] + ([a] + second), PROMPT_CHARS);
  }

  /** A prompt that loses its last word: three lines of 17 left short. */
  lemma PromptSpills() returns (text: string)
    ensures |text| == MAX_PROMPT_CHARS && WordsWithin(Words(text), 14) && !ShownWhole(text, PROMPT_CHARS, PROMPT_LINES)
  {
    var words := PromptWords();
    text := Spelled(words);
    WholeExactly(text, PROMPT_CHARS, PROMPT_LINES);
  }

  /** Prompts are at most 68 characters on 3 lines of 31: they are all shown
    whole exactly while no word is longer than 13.
  */
  lemma PromptWordLimit(limit: nat)
    ensures SureWithin(limit, MAX_PROMPT_CHARS, PROMPT_CHARS, PROMPT_LINES) <==> limit <= 13
  {
    if limit <= 13 {
      forall text | |text| <= MAX_PROMPT_CHARS && WordsWithin(Words(text), limit)
        ensures ShownWhole(text, PROMPT_CHARS, PROMPT_LINES)
      {
        ShortTextsAreWhole(text, PROMPT_CHARS, PROMPT_LINES, 13);
      }
    } else {
      var text := PromptSpills();
    }
  }

  lemma AnswerWords() returns (words: seq<string>)
    ensures words != [] && AreWords(words) && WordsWithin(words, 4)
    ensures Weight(words) == MAX_ANSWER_CHARS + 1 && LinesFrom(0, words, ANSWER_LABEL_CHARS) == 3
  {
    var a, b := Run(4), Run(2);
    var second := [a] + ([b] + ([a] + []));
    words := [b] + ([a] + second);
    InFront(7, a, [], ANSWER_LABEL_CHARS);
    InFront(4, b, [a] + [], ANSWER_LABEL_CHARS);
    InFront(7, a, [b] + ([a] + []), ANSWER_LABEL_CHARS);
    InFront(2, a, second, ANSWER_LABEL_CHARS);
    InFront(0, b, [a] + second, ANSWER_LABEL_CHARS);
  }

  /** An answer that loses its last word: two lines of 7 left short. */
  lemma AnswerSpills() returns (text: string)
    ensures |text| == MAX_ANSWER_CHARS && WordsWithin(Words(text), 4)
    ensures !ShownWhole(text, ANSWER_LABEL_CHARS, ANSWER_LABEL_LINES)
  {
    var words := AnswerWords();
    text := Spelled(words);
    WholeExactly(text, ANSWER_LABEL_CHARS, ANSWER_LABEL_LINES);
  }

  /** Answers are at most 20 characters on 2 lines of 11: they are all shown
    whole only while no word is longer than 3.
  */
  lemma AnswerWordLimit(limit: nat)
    ensures SureWithin(limit, MAX_ANSWER_CHARS, ANSWER_LABEL_CHARS, ANSWER_LABEL_LINES) <==> limit <= 3
  {
    if limit <= 3 {
      forall text | |text| <= MAX_ANSWER_CHARS && WordsWithin(Words(text), limit)
        ensures ShownWhole(text, ANSWER_LABEL_CHARS, ANSWER_LABEL_LINES)
      {
        ShortTextsAreWhole(text, ANSWER_LABEL_CHARS, ANSWER_LABEL_LINES, 3);
      }
    } else {
      var text := AnswerSpills();
    }
  }
}

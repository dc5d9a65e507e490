/** The ways a setting may be written (shared/src/env.rs): with or without
  `export`, bare or in either quotes, with spaces and a trailing comment, among
  blank and comment lines, with either line ending.
*/
module DotenvStyles {
  import opened Wrappers
  import opened Whitespace
  import opened Dotenv

  datatype Quoting = Bare | Single | Double

  /** `lead`, `gap`, `left`, `right` and `trail` are spaces: before the line,
    after `export`, on both sides of the equals sign, and at the end.
  */
  datatype Style = Style(
    exported: bool, quoting: Quoting, comment: Option<string>,
    lead: string, gap: string, left: string, right: string, trail: string)

  datatype FileLine = Blank(spaces: string) | Remark(lead: string, text: string) | Setting(key: string, value: string, style: Style)

  // ---------- spaces ----------

  predicate Spaces(text: string) {
    forall k :: 0 <= k < |text| ==> IsSpace(text[k]) && text[k] != '\n'
  }

  /** No space at either end. */
  predicate Tight(text: string) {
    text == "" || (!IsSpace(text[0]) && !IsSpace(text[|text| - 1]))
  }

  lemma {:induction false} TrimLead(lead: string, text: string)
    requires Spaces(lead)
    ensures TrimStart(lead + text) == TrimStart(text)
  {
    if lead == "" {
      assert lead + text == text;
    } else {
      assert (lead + text)[1..] == lead[1..] + text;
      TrimLead(lead[1..], text);
    }
  }

  lemma {:induction false} TrimTrail(text: string, trail: string)
    requires Spaces(trail)
    ensures TrimEnd(text + trail) == TrimEnd(text)
    decreases |trail|
  {
    if trail == "" {
      assert text + trail == text;
    } else {
      assert (text + trail)[..|text + trail| - 1] == text + trail[..|trail| - 1];
      TrimTrail(text, trail[..|trail| - 1]);
    }
  }

  lemma {:induction false} SpacesVanish(spaces: string)
    requires Spaces(spaces)
    ensures TrimStart(spaces) == ""
  {
    if spaces != "" {
      SpacesVanish(spaces[1..]);
    }
  }

  /** What stands between spaces. */
  lemma TrimMiddle(lead: string, text: string, trail: string)
    requires Spaces(lead) && Spaces(trail) && Tight(text)
    ensures Trim(lead + text + trail) == text
  {
    assert lead + text + trail == lead + (text + trail);
    TrimLead(lead, text + trail);
    if text == "" {
      assert text + trail == trail;
      SpacesVanish(trail);
    } else {
      assert TrimStart(text + trail) == text + trail;
      TrimTrail(text, trail);
    }
  }

  // ---------- values ----------

  /** What can be written in a way at all. */
  predicate Writable(value: string, quoting: Quoting) {
    match quoting
    case Bare => Tight(value) && (value != "" ==> !IsQuote(value[0])) && forall k :: 0 <= k < |value| ==> !BeginsComment(value, k)
    case Single => forall k :: 0 <= k < |value| ==> value[k] != '\''
    case Double => true
  }

  function Body(value: string, quoting: Quoting): string {
    match quoting
    case Bare => value
    case Single => "'" + value + "'"
    case Double => Quoted(value)
  }

  /** A comment after a value, with the space that sets it off. */
  function CommentPart(comment: Option<string>): string {
    match comment
    case None => ""
    case Some(text) => " " + ("#" + text)
  }

  lemma {:induction false} SingleCloses(value: string, i: nat, close: nat)
    requires i <= close < |value| && value[close] == '\''
    requires forall k :: i <= k < close ==> value[k] != '\''
    ensures Closing(value, '\'', i, false) == Some(close)
    decreases close - i
  {
    if i < close {
      SingleCloses(value, i + 1, close);
    }
  }

  /** Single quotes read as themselves exactly without a single quote inside. */
  lemma SingleValueExactly(value: string)
    ensures Value("'" + value + "'") == Good(value) <==> Writable(value, Single)
  {
    var text := "'" + value + "'";
    if Writable(value, Single) {
      SingleCloses(text, 1, |value| + 1);
      assert text[|value| + 2..] == "" && text[1..|value| + 1] == value;
    } else {
      var n := IndexOf(value, '\'');
      SingleCloses(text, 1, n + 1);
      assert |text[1..n + 1]| == n;
    }
  }

  // ---------- every quoted value ----------

  /** Text between double quotes: each quote and backslash has one before it. */
  predicate Balanced(body: string) {
    if body == "" then true
    else if body[0] == '\\' then |body| >= 2 && Balanced(body[2..])
    else body[0] != '"' && Balanced(body[1..])
  }

  /** The value is a quoted text and whatever follows its closing quote. */
  predicate Closes(value: string, body: string, rest: string) {
    && value != "" && IsQuote(value[0]) && value == [value[0]] + body + [value[0]] + rest
    && (if value[0] == '"' then Balanced(body) else '\'' !in body)
  }

  lemma {:induction false} BalancedCloses(value: string, i: nat, body: string)
    requires i + |body| < |value| && value[i..i + |body|] == body && value[i + |body|] == '"' && Balanced(body)
    ensures Closing(value, '"', i, false) == Some(i + |body|)
    decreases |body|
  {
    if body != "" {
      assert value[i] == body[0];
      if body[0] == '\\' {
        assert value[i + 2..i + |body|] == body[2..];
        BalancedCloses(value, i + 2, body[2..]);
        assert Closing(value, '"', i, false) == Closing(value, '"', i + 1, true);
      } else {
        assert value[i + 1..i + |body|] == body[1..];
        BalancedCloses(value, i + 1, body[1..]);
      }
    }
  }

  lemma {:induction false} ClosedIsBalanced(value: string, i: nat)
    requires i <= |value| && Closing(value, '"', i, false).Some?
    ensures Balanced(value[i..Closing(value, '"', i, false).value])
    decreases |value| - i
  {
    var close := Closing(value, '"', i, false).value;
    var body := value[i..close];
    if i < close {
      if value[i] == '\\' {
        assert Closing(value, '"', i, false) == Closing(value, '"', i + 1, true);
        ClosedIsBalanced(value, i + 2);
        assert body[2..] == value[i + 2..close];
      } else {
        ClosedIsBalanced(value, i + 1);
        assert body[1..] == value[i + 1..close];
      }
    }
  }

  lemma {:induction false} SingleIsFirst(value: string, i: nat)
    requires i <= |value| && Closing(value, '\'', i, false).Some?
    ensures forall k :: i <= k < Closing(value, '\'', i, false).value ==> value[k] != '\''
    decreases |value| - i
  {
    if i < Closing(value, '\'', i, false).value {
      SingleIsFirst(value, i + 1);
    }
  }

  /** What a quoted value reads as: its text, unescaped in double quotes, unless
    something other than a comment follows.
  */
  lemma QuotedMeans(value: string, body: string, rest: string)
    requires Closes(value, body, rest)
    ensures value[0] == '"' ==> Unescape(body).Some?
    ensures Value(value) ==
      if Trim(rest) != "" && Trim(rest)[0] != '#' then Bad(TextAfterQuote)
      else Good(if value[0] == '"' then Unescape(body).value else body)
  {
    assert value[1..1 + |body|] == body && value[1 + |body|] == value[0] && value[2 + |body|..] == rest;
    if value[0] == '"' {
      BalancedCloses(value, 1, body);
      ScanAgreesWithUnescape(value, 1);
    } else {
      SingleCloses(value, 1, 1 + |body|);
    }
  }

  /** A value that opens a quote is refused as unterminated exactly if it is no
    quoted text with something after it.
  */
  lemma UnterminatedExactly(value: string)
    requires value != "" && IsQuote(value[0])
    ensures Value(value) == Bad(Unterminated) <==> forall body, rest :: !Closes(value, body, rest)
  {
    forall body, rest | Closes(value, body, rest) ensures Value(value) != Bad(Unterminated) {
      QuotedMeans(value, body, rest);
    }
    var close := Closing(value, value[0], 1, false);
    if close.Some? {
      var body, rest := value[1..close.value], value[close.value + 1..];
      assert value == [value[0]] + body + [value[0]] + rest;
      if value[0] == '"' {
        ClosedIsBalanced(value, 1);
      } else {
        SingleIsFirst(value, 1);
      }
      assert Closes(value, body, rest);
    }
  }

  predicate GoodComment(comment: Option<string>) {
    comment.Some? ==> OneLine(comment.value) && (comment.value == "" || !IsSpace(comment.value[|comment.value| - 1]))
  }

  lemma CommentTrims(comment: Option<string>)
    requires GoodComment(comment)
    ensures Trim(CommentPart(comment)) == (if comment.Some? then "#" + comment.value else "")
  {
    if comment.Some? {
      var text := "#" + comment.value;
      assert " " + text + "" == CommentPart(comment);
      TrimMiddle(" ", text, "");
    }
  }

  lemma {:induction false} CommentFound(value: string, i: nat, n: nat)
    requires i <= n < |value| && BeginsComment(value, n)
    requires forall k :: i <= k < n ==> !BeginsComment(value, k)
    ensures CommentAt(value, i) == n
    decreases n - i
  {
    if i < n {
      CommentFound(value, i + 1, n);
    }
  }

  lemma {:induction false} NoCommentFound(value: string, i: nat)
    requires i <= |value| && forall k :: i <= k < |value| ==> !BeginsComment(value, k)
    ensures CommentAt(value, i) == |value|
    decreases |value| - i
  {
    if i < |value| {
      NoCommentFound(value, i + 1);
    }
  }

  lemma BareReads(value: string, comment: Option<string>)
    requires Writable(value, Bare) && GoodComment(comment) && value != ""
    ensures Value(value + CommentPart(comment)) == Good(value)
  {
    var text := value + CommentPart(comment);
    if comment.Some? {
      forall k | 0 <= k < |value| + 1 ensures !BeginsComment(text, k) {
        assert k < |value| ==> !BeginsComment(value, k);
      }
      CommentFound(text, 0, |value| + 1);
      assert text[..|value| + 1] == "" + value + " ";
      TrimMiddle("", value, " ");
    } else {
      assert text == value;
      NoCommentFound(value, 0);
      assert value[..|value|] == "" + value + "";
      TrimMiddle("", value, "");
    }
  }

  /** Nothing, or a comment, may follow the closing quote. */
  lemma CommentFollows(value: string, body: string, comment: Option<string>)
    requires Closes(value, body, CommentPart(comment)) && GoodComment(comment)
    ensures value[0] == '"' ==> Unescape(body).Some?
    ensures Value(value) == Good(if value[0] == '"' then Unescape(body).value else body)
  {
    CommentTrims(comment);
    QuotedMeans(value, body, CommentPart(comment));
  }

  lemma SingleReads(value: string, comment: Option<string>)
    requires Writable(value, Single) && GoodComment(comment)
    ensures Value("'" + value + "'" + CommentPart(comment)) == Good(value)
  {
    var text := "'" + value + "'" + CommentPart(comment);
    assert text[0] == '\'' && ['\''] == "'";
    CommentFollows(text, value, comment);
  }

  lemma {:induction false} EscapeIsBalanced(value: string)
    ensures Balanced(Escape(value))
  {
    if value != "" {
      var head, tail := Escaped(value[0]), Escape(value[1..]);
      EscapeIsBalanced(value[1..]);
      assert (head + tail)[|head|..] == tail && (head + tail)[0] == head[0];
    }
  }

  lemma DoubleReads(value: string, comment: Option<string>)
    requires GoodComment(comment)
    ensures Value(Quoted(value) + CommentPart(comment)) == Good(value)
  {
    var text, body := Quoted(value) + CommentPart(comment), Escape(value);
    EscapeIsBalanced(value);
    EscapeReads(value);
    assert text[0] == '"' && ['"'] == "\"" && text == ['"'] + body + ['"'] + CommentPart(comment);
    CommentFollows(text, body, comment);
  }

  // ---------- lines ----------

  /** What stands to the right of the equals sign. */
  function Tail(value: string, style: Style): string {
    Body(value, style.quoting) + CommentPart(style.comment)
  }

  predicate ValidStyle(value: string, style: Style) {
    && Writable(value, style.quoting) && GoodComment(style.comment)
    && Spaces(style.lead) && Spaces(style.gap) && Spaces(style.left) && Spaces(style.right) && Spaces(style.trail)
    && (style.quoting == Bare && value == "" && style.comment == None ==> style.right == "")
  }

  /** A variable may be called `export`, but not with a space after its name. */
  predicate ValidKey(key: string, style: Style) {
    IsKey(key) && (key == "export" && !style.exported && style.left != "" ==> style.left[0] != ' ')
  }

  lemma TailReads(value: string, style: Style)
    requires ValidStyle(value, style)
    ensures Value(Trim(style.right + Tail(value, style))) == Good(value)
  {
    var tail := Tail(value, style);
    if style.quoting == Bare && value == "" {
      EmptyReads(style.right, style.comment);
      assert tail == CommentPart(style.comment);
    } else {
      assert Tight(tail);
      assert style.right + tail == style.right + tail + "";
      TrimMiddle(style.right, tail, "");
      match style.quoting
      case Bare => BareReads(value, style.comment);
      case Single => SingleReads(value, style.comment);
      case Double => DoubleReads(value, style.comment);
    }
  }

  lemma EmptyReads(right: string, comment: Option<string>)
    requires Spaces(right) && GoodComment(comment) && (comment == None ==> right == "")
    ensures Value(Trim(right + CommentPart(comment))) == Good("")
  {
    match comment
    case Some(text) =>
      var core := "#" + text;
      SpaceMoves(right, core);
      TrimMiddle(right + " ", core, "");
      assert CommentAt(core, 0) == 0 && core[..0] == "";
    case None =>
      assert right + "" == "";
  }

  lemma SpaceMoves(right: string, core: string)
    ensures right + (" " + core) == (right + " ") + core + ""
  {
  }

  function Core(key: string, value: string, style: Style): string {
    (if style.exported then EXPORT + style.gap else "") + (key + style.left + "=" + (style.right + Tail(value, style)))
  }

  function Written(line: FileLine): string {
    match line
    case Blank(spaces) => spaces
    case Remark(lead, text) => lead + "#" + text
    case Setting(key, value, style) => style.lead + Core(key, value, style) + style.trail
  }

  /** The name on the left, and the place of the equals sign. */
  lemma NameReads(gap: string, key: string, left: string, rest: string)
    requires IsKey(key) && Spaces(gap) && Spaces(left)
    ensures var line, n := gap + (key + left + "=" + rest), |gap| + |key| + |left|;
      IndexOf(line, '=') == n && n < |line| && Trim(line[..n]) == key && line[n + 1..] == rest
  {
    var line, n := gap + (key + left + "=" + rest), |gap| + |key| + |left|;
    forall k | 0 <= k < n ensures line[k] != '=' {
      if k < |gap| {
        assert line[k] == gap[k];
      } else if k < |gap| + |key| {
        assert line[k] == key[k - |gap|];
      } else {
        assert line[k] == left[k - |gap| - |key|];
      }
    }
    FirstIndex(line, '=', n);
    assert line[..n] == gap + key + left;
    TrimMiddle(gap, key, left);
  }

  lemma ExportStripped(key: string, value: string, style: Style)
    requires ValidKey(key, style) && ValidStyle(value, style)
    ensures WithoutExport(Core(key, value, style))
         == (if style.exported then style.gap else "") + (key + style.left + "=" + (style.right + Tail(value, style)))
  {
    var core, rest := Core(key, value, style), key + style.left + "=" + (style.right + Tail(value, style));
    if style.exported {
      assert core == EXPORT + (style.gap + rest);
      assert core[|EXPORT|..] == style.gap + rest;
    } else {
      assert core == rest && "" + rest == rest;
      NotTheExport(key, style.left, "=" + (style.right + Tail(value, style)));
      assert key + style.left + ("=" + (style.right + Tail(value, style))) == rest;
    }
  }

  lemma NotTheExport(key: string, left: string, rest: string)
    requires IsKey(key) && Spaces(left) && rest != "" && rest[0] == '='
    requires key == "export" && left != "" ==> left[0] != ' '
    ensures !(EXPORT <= key + left + rest)
  {
    var core := key + left + rest;
    assert core[|key|] == if left != "" then left[0] else '=';
    assert forall k :: 0 <= k < |key| ==> core[k] == key[k];
    if |core| >= |EXPORT| {
      if |key| == 6 && key != "export" {
        assert EXPORT[..6] == "export";
        var i :| 0 <= i < 6 && key[i] != EXPORT[i];
        assert core[i] != EXPORT[i];
      } else {
        var k := Min(|key|, 6);
        assert core[k] != EXPORT[k];
      }
    }
  }

  lemma CoreIsTight(key: string, value: string, style: Style)
    requires ValidKey(key, style) && ValidStyle(value, style)
    ensures var core := Core(key, value, style);
      core != "" && Tight(core) && core[0] != '#'
  {
    var core, tail := Core(key, value, style), Tail(value, style);
    assert core[0] == if style.exported then 'e' else key[0];
    if tail != "" {
      assert core[|core| - 1] == tail[|tail| - 1];
    } else {
      assert core[|core| - 1] == '=';
    }
  }

  lemma EntryReads(line: string, n: nat, key: string, value: string)
    requires n < |line| && IndexOf(line, '=') == n && Trim(line[..n]) == key && IsKey(key)
    requires Value(Trim(line[n + 1..])) == Good(value)
    ensures ParseSetting(line) == Entry(key, value)
  {
  }

  lemma LineIsSetting(raw: string, core: string)
    requires Trim(raw) == core && core != "" && core[0] != '#'
    ensures ParseLine(raw) == ParseSetting(WithoutExport(core))
  {
  }

  lemma AssembledReads(gap: string, key: string, left: string, rest: string, value: string)
    requires Spaces(gap) && Spaces(left) && IsKey(key) && Value(Trim(rest)) == Good(value)
    ensures ParseSetting(gap + (key + left + "=" + rest)) == Entry(key, value)
  {
    NameReads(gap, key, left, rest);
    EntryReads(gap + (key + left + "=" + rest), |gap| + |key| + |left|, key, value);
  }

  /** A setting written in any of these ways reads as its key and value. */
  lemma SettingReads(key: string, value: string, style: Style)
    requires ValidKey(key, style) && ValidStyle(value, style)
    ensures ParseLine(style.lead + Core(key, value, style) + style.trail) == Entry(key, value)
  {
    var gap, rest := if style.exported then style.gap else "", style.right + Tail(value, style);
    var core := Core(key, value, style);
    assert ParseSetting(gap + (key + style.left + "=" + rest)) == Entry(key, value) by {
      TailReads(value, style);
      AssembledReads(gap, key, style.left, rest, value);
    }
    assert WithoutExport(core) == gap + (key + style.left + "=" + rest) by {
      ExportStripped(key, value, style);
    }
    CoreIsTight(key, value, style);
    TrimMiddle(style.lead, core, style.trail);
    LineIsSetting(style.lead + core + style.trail, core);
  }

  // ---------- files ----------

  /** What can stand on one line. */
  predicate ValidLine(line: FileLine) {
    match line
    case Blank(spaces) => Spaces(spaces)
    case Remark(lead, text) => Spaces(lead) && OneLine(text)
    case Setting(key, value, style) =>
      ValidKey(key, style) && ValidStyle(value, style) && (style.quoting != Double ==> OneLine(value))
  }

  /** A file with these lines, ended by line feeds or by both characters. */
  function Text(lines: seq<FileLine>, crlf: bool): string {
    if lines == [] then "" else Written(lines[0]) + (if crlf then "\r" else "") + "\n" + Text(lines[1..], crlf)
  }

  /** The settings of a file, later ones over earlier ones. */
  function Meant(read: map<string, string>, lines: seq<FileLine>): map<string, string>
    decreases |lines|
  {
    if lines == [] then read
    else Meant(if lines[0].Setting? then read[lines[0].key := lines[0].value] else read, lines[1..])
  }

  function ResultOf(line: FileLine): LineResult {
    if line.Setting? then Entry(line.key, line.value) else Skipped
  }

  lemma RemarkTrims(lead: string, text: string)
    requires Spaces(lead)
    ensures Trim(lead + "#" + text) != "" && Trim(lead + "#" + text)[0] == '#'
  {
    assert lead + "#" + text == lead + ("#" + text);
    TrimLead(lead, "#" + text);
    HeadStays("#" + text);
  }

  lemma {:induction false} HeadStays(text: string)
    requires text != "" && !IsSpace(text[0])
    ensures TrimEnd(text) != "" && TrimEnd(text)[0] == text[0]
    decreases |text|
  {
    if IsSpace(text[|text| - 1]) {
      HeadStays(text[..|text| - 1]);
    }
  }

  /** Each line reads as what it says, with a carriage return at its end or not. */
  lemma WrittenReads(line: FileLine, end: string)
    requires ValidLine(line) && Spaces(end)
    ensures ParseLine(Written(line) + end) == ResultOf(line)
  {
    match line
    case Blank(spaces) =>
      assert spaces + end == spaces + "" + end;
      TrimMiddle(spaces, "", end);
    case Remark(lead, text) =>
      assert Written(line) + end == lead + "#" + (text + end);
      RemarkTrims(lead, text + end);
    case Setting(key, value, style) =>
      assert Written(line) + end == style.lead + Core(key, value, style) + (style.trail + end);
      SettingReads(key, value, style.(trail := style.trail + end));
  }

  /** A written line holds no line feed. */
  lemma WrittenIsOneLine(line: FileLine)
    requires ValidLine(line)
    ensures OneLine(Written(line))
  {
    match line
    case Blank(_) =>
    case Remark(_, _) =>
    case Setting(key, value, style) =>
      EscapeIsOneLine(value);
      assert OneLine(Body(value, style.quoting)) && OneLine(CommentPart(style.comment));
      assert OneLine(Tail(value, style));
      assert OneLine(key + style.left + "=" + (style.right + Tail(value, style)));
      assert OneLine(EXPORT + style.gap);
      assert OneLine(Core(key, value, style));
  }

  /** The first line of a file, without its ending: the line as written, or
    what a carriage return of its own was dropped from.
  */
  lemma FirstOfLines(line: string, end: string, rest: string)
    requires OneLine(line + end)
    ensures Lines(line + end + "\n" + rest) == [DropReturn(line + end)] + Lines(rest)
  {
    var content, n := line + end + "\n" + rest, |line + end|;
    FirstIndex(content, '\n', n);
    assert content[..n] == line + end && content[n + 1..] == rest;
  }

  /** Dropping a carriage return is dropping a space at the end. */
  lemma ReturnIsSpace(text: string)
    ensures Trim(DropReturn(text)) == Trim(text)
  {
    if text != "" && text[|text| - 1] == '\r' {
      var line := text[..|text| - 1];
      assert text == line + "\r";
      TrimTrail(TrimStart(line), "\r");
      StartThenEnd(line, "\r");
    }
  }

  /** Trimming the start does not touch what follows, or eats everything. */
  lemma {:induction false} StartThenEnd(text: string, end: string)
    requires Spaces(end)
    ensures TrimStart(text + end) == TrimStart(text) + end || (TrimStart(text) == "" && TrimStart(text + end) == "")
  {
    if text == "" {
      assert text + end == end;
      SpacesVanish(end);
    } else {
      assert (text + end)[1..] == text[1..] + end && (text + end)[0] == text[0];
      if IsSpace(text[0]) {
        StartThenEnd(text[1..], end);
      }
    }
  }

  lemma ReadsAlike(a: string, b: string)
    requires Trim(a) == Trim(b)
    ensures ParseLine(a) == ParseLine(b)
  {
  }

  lemma FirstLineReads(line: FileLine, end: string, rest: string)
    requires ValidLine(line) && (end == "" || end == "\r")
    ensures ParseLines(Lines(Written(line) + end + "\n" + rest)) == [ResultOf(line)] + ParseLines(Lines(rest))
  {
    var written := Written(line);
    assert OneLine(written + end) by {
      WrittenIsOneLine(line);
    }
    FirstOfLines(written, end, rest);
    assert ParseLine(DropReturn(written + end)) == ResultOf(line) by {
      ReturnIsSpace(written + end);
      ReadsAlike(DropReturn(written + end), written + end);
      WrittenReads(line, end);
    }
    ParseLinesFirst(DropReturn(written + end), Lines(rest));
  }

  lemma CollectFirst(result: LineResult, rest: seq<LineResult>, number: nat, read: map<string, string>)
    requires !result.Fault?
    ensures Collect([result] + rest, number, read)
         == Collect(rest, number + 1, if result.Entry? then read[result.key := result.value] else read)
  {
    assert ([result] + rest)[1..] == rest;
  }

  lemma {:induction false} TextReads(lines: seq<FileLine>, crlf: bool, number: nat, read: map<string, string>)
    requires forall k :: 0 <= k < |lines| ==> ValidLine(lines[k])
    ensures Collect(ParseLines(Lines(Text(lines, crlf))), number, read) == Env(Meant(read, lines))
    decreases |lines|
  {
    if lines != [] {
      var next := if lines[0].Setting? then read[lines[0].key := lines[0].value] else read;
      FirstLineReads(lines[0], if crlf then "\r" else "", Text(lines[1..], crlf));
      CollectFirst(ResultOf(lines[0]), ParseLines(Lines(Text(lines[1..], crlf))), number, read);
      TextReads(lines[1..], crlf, number + 1, next);
    }
  }

  /** A file of blank lines, comment lines and settings, each written in any of
    its ways and with either line ending, reads as the settings it means.
  */
  lemma FileReads(lines: seq<FileLine>, crlf: bool)
    requires forall k :: 0 <= k < |lines| ==> ValidLine(lines[k])
    ensures ParseEnv(Text(lines, crlf)) == Env(Meant(map[], lines))
  {
    TextReads(lines, crlf, 1, map[]);
  }

  /** A variable called `export`, with a space after its name, is refused. */
  lemma ExportWithSpaceIsRefused(value: string)
    ensures ParseLine("export =" + Quoted(value)) == Fault(InvalidKey(""))
  {
    var line := "export =" + Quoted(value);
    AlreadyTrimmed(line);
    assert EXPORT <= line && line[|EXPORT|..] == "=" + Quoted(value);
    var rest := "=" + Quoted(value);
    assert IndexOf(rest, '=') == 0 && rest[..0] == "";
  }
}

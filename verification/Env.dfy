/** The dotenv reader of the firmware build (shared/src/env.rs). */
module Dotenv {
  import opened Whitespace
  import opened Wrappers

  datatype Problem = ExpectedKeyValue | InvalidKey(key: string) | Unterminated | TextAfterQuote | TrailingEscape

  datatype ValueResult = Good(text: string) | Bad(problem: Problem)

  datatype LineResult = Skipped | Entry(key: string, value: string) | Fault(problem: Problem)

  datatype EnvResult = Env(values: map<string, string>) | EnvError(line: nat, problem: Problem)

  // ---------- text ----------

  /** Where a character first stands, or the length. */
  function IndexOf(text: string, c: char): (n: nat)
    ensures n <= |text| && (n < |text| ==> text[n] == c)
    ensures forall k :: 0 <= k < n ==> text[k] != c
  {
    if text == "" || text[0] == c then 0 else 1 + IndexOf(text[1..], c)
  }

  function TrimStart(text: string): string {
    if text != "" && IsSpace(text[0]) then TrimStart(text[1..]) else text
  }

  function TrimEnd(text: string): string {
    if text != "" && IsSpace(text[|text| - 1]) then TrimEnd(text[..|text| - 1]) else text
  }

  function Trim(text: string): string {
    TrimEnd(TrimStart(text))
  }

  /** `lines`: split at line feeds, a carriage return before one dropped. */
  function Lines(content: string): seq<string>
    decreases |content|
  {
    if content == "" then []
    else
      var n := IndexOf(content, '\n');
      if n == |content| then [content] else [DropReturn(content[..n])] + Lines(content[n + 1..])
  }

  function DropReturn(line: string): string {
    if line != "" && line[|line| - 1] == '\r' then line[..|line| - 1] else line
  }

  // ---------- values ----------

  /** The closing quote at or after `i`; in double quotes a backslash hides the
    character after it.
  */
  function Closing(value: string, quote: char, i: nat, escaped: bool): (close: Option<nat>)
    requires i <= |value|
    ensures close.Some? ==> i <= close.value < |value| && value[close.value] == quote
    decreases |value| - i
  {
    if i == |value| then None
    else if quote == '"' && escaped then Closing(value, quote, i + 1, false)
    else if quote == '"' && value[i] == '\\' then Closing(value, quote, i + 1, true)
    else if value[i] == quote then Some(i)
    else Closing(value, quote, i + 1, escaped)
  }

  function Unescaped(c: char): char {
    match c case 'n' => '\n' case 'r' => '\r' case 't' => '\t' case _ => c
  }

  /** `None` when the text ends in a lone backslash. */
  function Unescape(quoted: string): Option<string> {
    if quoted == "" then Some("")
    else if quoted[0] != '\\' then
      var rest := Unescape(quoted[1..]);
      if rest.None? then None else Some([quoted[0]] + rest.value)
    else if |quoted| == 1 then None
    else
      var rest := Unescape(quoted[2..]);
      if rest.None? then None else Some([Unescaped(quoted[1])] + rest.value)
  }

  /** A comment begins at a `#` that starts the value or follows a space. */
  predicate BeginsComment(value: string, k: nat)
    requires k < |value|
  {
    value[k] == '#' && (k == 0 || IsSpace(value[k - 1]))
  }

  function CommentAt(value: string, i: nat): (n: nat)
    requires i <= |value|
    ensures i <= n <= |value| && (n < |value| ==> BeginsComment(value, n))
    ensures forall k :: i <= k < n ==> !BeginsComment(value, k)
    decreases |value| - i
  {
    if i == |value| || BeginsComment(value, i) then i else CommentAt(value, i + 1)
  }

  predicate IsQuote(c: char) {
    c == '\'' || c == '"'
  }

  function Value(value: string): ValueResult {
    if value == "" || !IsQuote(value[0]) then Good(Trim(value[..CommentAt(value, 0)]))
    else
      var close := Closing(value, value[0], 1, false);
      if close.None? then Bad(Unterminated)
      else
        var remainder := Trim(value[close.value + 1..]);
        if remainder != "" && remainder[0] != '#' then Bad(TextAfterQuote)
        else if value[0] == '\'' then Good(value[1..close.value])
        else
          var parsed := Unescape(value[1..close.value]);
          if parsed.None? then Bad(TrailingEscape) else Good(parsed.value)
  }

  method ParseEnvValue(value: string) returns (result: ValueResult)
    ensures result == Value(value)
  {
    if value == "" || !IsQuote(value[0]) {
      return Good(Trim(value[..CommentAt(value, 0)]));
    }
    var quote, escaped := value[0], false;
    var closing: Option<nat> := None;
    var index := 1;
    while index < |value| && closing.None?
      invariant 1 <= index <= |value|
      invariant Closing(value, quote, 1, false) == if closing.Some? then closing else Closing(value, quote, index, escaped)
      decreases |value| - index, if closing.None? then 1 else 0
    {
      if quote == '"' && escaped {
        escaped := false;
        index := index + 1;
      } else if quote == '"' && value[index] == '\\' {
        escaped := true;
        index := index + 1;
      } else if value[index] == quote {
        closing := Some(index);
      } else {
        index := index + 1;
      }
    }
    if closing.None? { return Bad(Unterminated); }
    var remainder := Trim(value[closing.value + 1..]);
    if remainder != "" && remainder[0] != '#' { return Bad(TextAfterQuote); }
    var quoted := value[1..closing.value];
    if quote == '\'' { return Good(quoted); }
    var parsed := ReadEscapes(quoted);
    result := if parsed.None? then Bad(TrailingEscape) else Good(parsed.value);
  }

  /** What is read so far, followed by what the rest reads as. */
  function Followed(parsed: string, rest: Option<string>): Option<string> {
    if rest.None? then None else Some(parsed + rest.value)
  }

  lemma OneMoreRead(parsed: string, c: char, rest: Option<string>)
    ensures Followed(parsed, if rest.None? then None else Some([c] + rest.value)) == Followed(parsed + [c], rest)
  {
    if rest.Some? {
      assert parsed + ([c] + rest.value) == parsed + [c] + rest.value;
    }
  }

  method ReadEscapes(quoted: string) returns (result: Option<string>)
    ensures result == Unescape(quoted)
  {
    var parsed, at := "", 0;
    NothingYet(Unescape(quoted));
    assert quoted[0..] == quoted;
    while at < |quoted|
      invariant at <= |quoted|
      invariant Unescape(quoted) == Followed(parsed, Unescape(quoted[at..]))
    {
      ghost var left := quoted[at..];
      if quoted[at] != '\\' {
        OneMoreRead(parsed, quoted[at], Unescape(left[1..]));
        parsed, at := parsed + [quoted[at]], at + 1;
      } else {
        if at + 1 == |quoted| { return None; }
        OneMoreRead(parsed, Unescaped(quoted[at + 1]), Unescape(left[2..]));
        parsed, at := parsed + [Unescaped(quoted[at + 1])], at + 2;
      }
    }
    assert quoted[at..] == "" && parsed + "" == parsed;
    result := Some(parsed);
  }

  lemma NothingYet(rest: Option<string>)
    ensures Followed("", rest) == rest
  {
    if rest.Some? {
      assert "" + rest.value == rest.value;
    }
  }

  /** Up to the closing quote no backslash is left over: the reader's
    "trailing escape" error is never reported.
  */
  lemma {:induction false} ScanAgreesWithUnescape(value: string, i: nat)
    requires i <= |value| && Closing(value, '"', i, false).Some?
    ensures Unescape(value[i..Closing(value, '"', i, false).value]).Some?
    decreases |value| - i
  {
    var close := Closing(value, '"', i, false).value;
    if i < close {
      if value[i] == '\\' {
        ScanAgreesWithUnescape(value, i + 2);
        assert value[i..close][2..] == value[i + 2..close];
      } else {
        ScanAgreesWithUnescape(value, i + 1);
        assert value[i..close][1..] == value[i + 1..close];
      }
    }
  }

  lemma NoTrailingEscape(value: string)
    ensures Value(value) != Bad(TrailingEscape)
  {
    if value != "" && value[0] == '"' && Closing(value, '"', 1, false).Some? {
      ScanAgreesWithUnescape(value, 1);
    }
  }

  // ---------- lines ----------

  predicate IsKeyChar(c: char) {
    c == '_' || 'a' <= c <= 'z' || 'A' <= c <= 'Z' || '0' <= c <= '9'
  }

  predicate IsKey(key: string) {
    key != "" && forall k :: 0 <= k < |key| ==> IsKeyChar(key[k])
  }

  const EXPORT := "export "

  function WithoutExport(line: string): string {
    if EXPORT <= line then line[|EXPORT|..] else line
  }

  function ParseSetting(line: string): LineResult {
    var n := IndexOf(line, '=');
    if n == |line| then Fault(ExpectedKeyValue)
    else
      var key := Trim(line[..n]);
      if !IsKey(key) then Fault(InvalidKey(key))
      else
        match Value(Trim(line[n + 1..]))
        case Good(value) => Entry(key, value)
        case Bad(problem) => Fault(problem)
  }

  function ParseLine(raw: string): LineResult {
    var trimmed := Trim(raw);
    if trimmed == "" || trimmed[0] == '#' then Skipped else ParseSetting(WithoutExport(trimmed))
  }

  function ParseLines(lines: seq<string>): (results: seq<LineResult>)
    ensures |results| == |lines| && forall i :: 0 <= i < |lines| ==> results[i] == ParseLine(lines[i])
  {
    if lines == [] then [] else [ParseLine(lines[0])] + ParseLines(lines[1..])
  }

  /** Later entries win; the first fault ends the reading. */
  function Collect(results: seq<LineResult>, number: nat, values: map<string, string>): EnvResult
    decreases |results|
  {
    if results == [] then Env(values)
    else
      match results[0]
      case Skipped => Collect(results[1..], number + 1, values)
      case Entry(key, value) => Collect(results[1..], number + 1, values[key := value])
      case Fault(problem) => EnvError(number, problem)
  }

  function ParseEnv(content: string): EnvResult {
    Collect(ParseLines(Lines(content)), 1, map[])
  }

  predicate NoFault(results: seq<LineResult>) {
    forall i :: 0 <= i < |results| ==> !results[i].Fault?
  }

  /** A file is refused exactly when some line is faulty, and the first such
    line is the one reported.
  */
  lemma {:induction false} FirstFaultIsReported(results: seq<LineResult>, number: nat, values: map<string, string>)
    ensures var r := Collect(results, number, values);
      if r.Env? then NoFault(results)
      else
        && number <= r.line < number + |results|
        && results[r.line - number] == Fault(r.problem)
        && NoFault(results[..r.line - number])
    decreases |results|
  {
    if results != [] && !results[0].Fault? {
      var next := if results[0].Skipped? then values else values[results[0].key := results[0].value];
      FirstFaultIsReported(results[1..], number + 1, next);
      var r := Collect(results, number, values);
      assert r == Collect(results[1..], number + 1, next);
      if r.Env? {
        assert forall i :: 0 < i < |results| ==> results[i] == results[1..][i - 1];
      } else {
        var k := r.line - number;
        assert results[k] == results[1..][k - 1];
        assert forall i :: 0 < i < k ==> results[..k][i] == results[1..][..k - 1][i - 1];
      }
    }
  }

  /** The value the last entry for a key gives it. */
  function LastEntry(results: seq<LineResult>, key: string): Option<string> {
    if results == [] then None
    else
      var rest := LastEntry(results[1..], key);
      if rest.None? && results[0].Entry? && results[0].key == key then Some(results[0].value) else rest
  }

  /** A file that is accepted gives exactly the keys of its entries, and of
    several entries for a key the last one counts.
  */
  lemma {:induction false} LastEntryWins(results: seq<LineResult>, number: nat, values: map<string, string>, key: string)
    requires Collect(results, number, values).Env?
    ensures var read, last := Collect(results, number, values).values, LastEntry(results, key);
      && (key in read <==> key in values || last.Some?)
      && (key in read ==> read[key] == if last.Some? then last.value else values[key])
    decreases |results|
  {
    if results != [] {
      var next := if results[0].Skipped? then values else values[results[0].key := results[0].value];
      LastEntryWins(results[1..], number + 1, next, key);
    }
  }

  // ---------- printing ----------

  function Escaped(c: char): string {
    match c
    case '\\' => "\\\\"
    case '"' => "\\\""
    case '\n' => "\\n"
    case '\r' => "\\r"
    case '\t' => "\\t"
    case _ => [c]
  }

  function Escape(value: string): string {
    if value == "" then "" else Escaped(value[0]) + Escape(value[1..])
  }

  function Quoted(value: string): string {
    "\"" + Escape(value) + "\""
  }

  function PrintLine(key: string, value: string): string {
    key + "=" + Quoted(value)
  }

  /** One line per key, in the order given. */
  function Print(values: map<string, string>, keys: seq<string>): string
    requires forall key :: key in keys ==> key in values
  {
    if keys == [] then "" else PrintLine(keys[0], values[keys[0]]) + "\n" + Print(values, keys[1..])
  }

  // ---------- reading back what was printed ----------

  lemma {:induction false} EscapeReads(value: string)
    ensures Unescape(Escape(value)) == Some(value)
  {
    if value != "" {
      var head, tail := Escaped(value[0]), Escape(value[1..]);
      EscapeReads(value[1..]);
      assert (head + tail)[|head|..] == tail;
      assert [value[0]] + value[1..] == value;
      assert head[0] == (head + tail)[0];
      if |head| == 2 {
        assert (head + tail)[1] == head[1];
      }
    }
  }

  /** The scan passes over an escaped character, and over an escaped text. */
  lemma ScanPassesOne(text: string, c: char, i: nat)
    requires i + |Escaped(c)| <= |text| && text[i] == Escaped(c)[0]
    requires |Escaped(c)| == 2 ==> text[i + 1] == Escaped(c)[1]
    ensures Closing(text, '"', i, false) == Closing(text, '"', i + |Escaped(c)|, false)
  {
    if |Escaped(c)| == 2 {
      assert Closing(text, '"', i, false) == Closing(text, '"', i + 1, true);
    }
  }

  lemma {:induction false} ScanPasses(text: string, value: string, i: nat)
    requires i + |Escape(value)| <= |text| && text[i..i + |Escape(value)|] == Escape(value)
    ensures Closing(text, '"', i, false) == Closing(text, '"', i + |Escape(value)|, false)
    decreases |value|
  {
    if value != "" {
      var head, tail := Escaped(value[0]), Escape(value[1..]);
      assert text[i] == head[0] && (|head| == 2 ==> text[i + 1] == head[1])
          && text[i + |head|..i + |head| + |tail|] == tail by {
        SplitAt(text, i, head, tail);
      }
      ScanPassesOne(text, value[0], i);
      ScanPasses(text, value[1..], i + |head|);
    }
  }

  lemma SplitAt<T>(whole: seq<T>, i: nat, head: seq<T>, tail: seq<T>)
    requires i + |head| + |tail| <= |whole| && whole[i..i + |head| + |tail|] == head + tail
    ensures forall k :: 0 <= k < |head| ==> whole[i + k] == head[k]
    ensures whole[i + |head|..i + |head| + |tail|] == tail
  {
    var part := whole[i..i + |head| + |tail|];
    assert forall k :: 0 <= k < |head| ==> whole[i + k] == part[k];
    assert part[|head|..] == tail;
  }

  lemma QuotedReads(value: string)
    ensures Value(Quoted(value)) == Good(value)
  {
    var text, body := Quoted(value), Escape(value);
    assert text[1..1 + |body|] == body;
    ScanPasses(text, value, 1);
    assert text[1 + |body|] == '"';
    EscapeReads(value);
    assert text[|body| + 2..] == "";
  }

  /** Nothing to trim. */
  lemma AlreadyTrimmed(text: string)
    requires text == "" || (!IsSpace(text[0]) && !IsSpace(text[|text| - 1]))
    ensures Trim(text) == text
  {
  }

  lemma {:induction false} FirstIndex(text: string, c: char, n: nat)
    requires n < |text| && text[n] == c && forall k :: 0 <= k < n ==> text[k] != c
    ensures IndexOf(text, c) == n
  {
    if n > 0 {
      FirstIndex(text[1..], c, n - 1);
    }
  }

  lemma PrintedLineReads(key: string, value: string)
    requires IsKey(key)
    ensures ParseLine(PrintLine(key, value)) == Entry(key, value)
  {
    var line, n := PrintLine(key, value), |key|;
    assert line[..n] == key && line[n] == '=' && line[n + 1..] == Quoted(value);
    assert line[0] == key[0] && line[|line| - 1] == '"';
    AlreadyTrimmed(line);
    AlreadyTrimmed(key);
    AlreadyTrimmed(Quoted(value));
    NotExported(line, n);
    FirstIndex(line, '=', n);
    QuotedReads(value);
  }

  /** A key has no space, so a printed line does not begin with "export ". */
  lemma NotExported(line: string, n: nat)
    requires n < |line| && line[n] == '=' && IsKey(line[..n])
    ensures WithoutExport(line) == line
  {
    if |line| > 6 {
      var k := Min(n, 6);
      assert n > 6 ==> line[6] == line[..n][6];
      assert line[k] != EXPORT[k];
    }
  }

  predicate OneLine(text: string) {
    forall k :: 0 <= k < |text| ==> text[k] != '\n'
  }

  lemma {:induction false} EscapeIsOneLine(value: string)
    ensures OneLine(Escape(value))
  {
    if value != "" {
      EscapeIsOneLine(value[1..]);
    }
  }

  lemma FirstLine(line: string, rest: string)
    requires OneLine(line) && line != "" && line[|line| - 1] == '"'
    ensures Lines(line + "\n" + rest) == [line] + Lines(rest)
  {
    var content := line + "\n" + rest;
    FirstIndex(content, '\n', |line|);
    assert content[..|line|] == line && content[|line| + 1..] == rest;
  }

  /** The map after reading the entries of some keys. */
  function WithEntries(read: map<string, string>, values: map<string, string>, keys: seq<string>): map<string, string>
    requires forall key :: key in keys ==> key in values
    decreases |keys|
  {
    if keys == [] then read else WithEntries(read[keys[0] := values[keys[0]]], values, keys[1..])
  }

  lemma {:induction false} WithEntriesHas(read: map<string, string>, values: map<string, string>, keys: seq<string>)
    requires forall key :: key in keys ==> key in values
    ensures var all := WithEntries(read, values, keys);
      && (forall key :: key in all <==> key in read || key in keys)
      && (forall key :: key in all ==> all[key] == if key in keys then values[key] else read[key])
    decreases |keys|
  {
    if keys != [] {
      WithEntriesHas(read[keys[0] := values[keys[0]]], values, keys[1..]);
      assert keys == [keys[0]] + keys[1..];
    }
  }

  lemma PrintedLineFirst(key: string, value: string, rest: string, number: nat, read: map<string, string>)
    requires IsKey(key)
    ensures Collect(ParseLines(Lines(PrintLine(key, value) + "\n" + rest)), number, read)
         == Collect(ParseLines(Lines(rest)), number + 1, read[key := value])
  {
    var line, next := PrintLine(key, value), Lines(rest);
    assert ParseLines(Lines(line + "\n" + rest)) == [Entry(key, value)] + ParseLines(next) by {
      EscapeIsOneLine(value);
      FirstLine(line, rest);
      PrintedLineReads(key, value);
      ParseLinesFirst(line, next);
    }
    CollectEntry(ParseLines(next), number, read, key, value);
  }

  lemma ParseLinesFirst(line: string, rest: seq<string>)
    ensures ParseLines([line] + rest) == [ParseLine(line)] + ParseLines(rest)
  {
    assert ([line] + rest)[1..] == rest;
  }

  lemma CollectEntry(rest: seq<LineResult>, number: nat, read: map<string, string>, key: string, value: string)
    ensures Collect([Entry(key, value)] + rest, number, read) == Collect(rest, number + 1, read[key := value])
  {
    assert ([Entry(key, value)] + rest)[1..] == rest;
  }

  lemma {:induction false} PrintReads(values: map<string, string>, keys: seq<string>, number: nat, read: map<string, string>)
    requires forall key :: key in keys ==> key in values && IsKey(key)
    ensures Collect(ParseLines(Lines(Print(values, keys))), number, read) == Env(WithEntries(read, values, keys))
    decreases |keys|
  {
    if keys != [] {
      var key, rest := keys[0], keys[1..];
      assert key in keys && forall k :: k in rest ==> k in keys;
      PrintedLineFirst(key, values[key], Print(values, rest), number, read);
      PrintReads(values, rest, number + 1, read[key := values[key]]);
    }
  }

  /** Every map whose keys are valid is read back from its printing, whatever
    the values and in whatever order the keys are printed.
  */
  lemma EnvRoundTrip(values: map<string, string>, keys: seq<string>)
    requires forall key :: key in keys <==> key in values
    requires forall key :: key in values ==> IsKey(key)
    ensures ParseEnv(Print(values, keys)) == Env(values)
  {
    PrintReads(values, keys, 1, map[]);
    WithEntriesHas(map[], values, keys);
    assert WithEntries(map[], values, keys) == values;
  }

  // ---------- values without quotes ----------

  lemma {:induction false} TrimShortens(text: string)
    ensures |TrimEnd(text)| <= |text| && |TrimStart(text)| <= |text|
    ensures |TrimEnd(text)| == |text| ==> TrimEnd(text) == text
    ensures |TrimStart(text)| == |text| ==> TrimStart(text) == text
    ensures TrimEnd(text) == text <==> text == "" || !IsSpace(text[|text| - 1])
    ensures TrimStart(text) == text <==> text == "" || !IsSpace(text[0])
    decreases |text|
  {
    if text != "" {
      TrimShortens(text[1..]);
      TrimShortens(text[..|text| - 1]);
    }
  }

  lemma {:induction false} UnescapeShortens(quoted: string)
    ensures Unescape(quoted).Some? ==> |Unescape(quoted).value| <= |quoted|
    decreases |quoted|
  {
    if quoted != "" {
      if quoted[0] != '\\' {
        UnescapeShortens(quoted[1..]);
      } else if |quoted| > 1 {
        UnescapeShortens(quoted[2..]);
      }
    }
  }

  /** A bare value reads as itself exactly when it has no space at either end,
    no quote in front and no comment in it.
  */
  lemma BareValueExactly(value: string)
    ensures Value(value) == Good(value) <==>
      value == "" || (!IsSpace(value[0]) && !IsSpace(value[|value| - 1]) && !IsQuote(value[0])
        && forall k :: 0 <= k < |value| ==> !BeginsComment(value, k))
  {
    if value != "" && IsQuote(value[0]) {
      var close := Closing(value, value[0], 1, false);
      if close.Some? {
        UnescapeShortens(value[1..close.value]);
      }
    } else {
      var n := CommentAt(value, 0);
      TrimShortens(value[..n]);
      TrimShortens(TrimStart(value[..n]));
      assert n == |value| ==> value[..n] == value;
    }
  }
}

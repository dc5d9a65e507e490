/** Where the question screen draws, and that every character can be read back. */
module BadgeLayout {
  import opened Pixels
  import opened Pictures
  import opened TextWrap
  import BadgeInput
  import Wrappers

  // ---------- each element stays in its rectangle ----------

  lemma {:induction false} TextStays(faces: Faces, text: string, n: nat, x: nat, y: nat)
    requires n <= |text|
    ensures TextPoints(faces, text, n, x, y) <= Rect(x, y, WIDTH, GLYPH_HEIGHT) * Rect(0, y, WIDTH, GLYPH_HEIGHT)
  {
    if n > 0 {
      TextStays(faces, text, n - 1, x, y);
    }
  }

  lemma {:induction false} CompactTextStays(faces: Faces, text: string, n: nat, x: nat, y: nat, room: nat)
    requires n <= |text| && n <= room
    ensures CompactTextPoints(faces, text, n, x, y) <= Rect(x, y, room * COMPACT_ADVANCE, COMPACT_HEIGHT)
  {
    if n > 0 {
      CompactTextStays(faces, text, n - 1, x, y, room);
    }
  }

  lemma {:induction false} WrappedStays(faces: Faces, lines: seq<string>, n: nat, x: nat, y: nat, maxChars: nat)
    requires n <= |lines| && forall k :: 0 <= k < |lines| ==> |lines[k]| <= maxChars
    ensures WrappedPoints(faces, lines, n, x, y) <= Rect(x, y, maxChars * COMPACT_ADVANCE, n * COMPACT_PITCH)
  {
    if n > 0 {
      WrappedStays(faces, lines, n - 1, x, y, maxChars);
      CompactTextStays(faces, lines[n - 1], |lines[n - 1]|, x, y + (n - 1) * COMPACT_PITCH, maxChars);
    }
  }

  ghost function PanelRegion(index: nat): iset<Point>
    requires index < 4
  {
    Rect(PANELS[index].0, PANELS[index].1, ANSWER_PANEL_WIDTH, ANSWER_PANEL_HEIGHT)
  }

  ghost function PanelElement(faces: Faces, answers: seq<string>, index: nat): iset<Point>
    requires |answers| == 4 && index < 4
  {
    PanelPoints(faces, index, PANELS[index].0, PANELS[index].1, answers[index])
  }

  /** The rectangles of the question screen: header, prompt and four panels. */
  ghost function Regions(): (regions: seq<iset<Point>>)
    ensures |regions| == 6
  {
    [
      Rect(0, 0, WIDTH, HEADER_RULE_Y + 1),
      Rect(1, HEADLINE_Y, PROMPT_CHARS * COMPACT_ADVANCE, PROMPT_LINES * COMPACT_PITCH)
    ] + seq(4, index requires 0 <= index < 4 => PanelRegion(index))
  }

  /** What is drawn for each. */
  ghost function Elements(faces: Faces, callsign: string, prompt: string, answers: seq<string>): (elements: seq<iset<Point>>)
    requires |answers| == 4
    ensures |elements| == 6
  {
    [HeaderPoints(faces, callsign), PromptPoints(faces, prompt)]
    + seq(4, index requires 0 <= index < 4 => PanelElement(faces, answers, index))
  }

  ghost predicate Apart(regions: seq<iset<Point>>) {
    forall i, j, p: Point :: 0 <= i < |regions| && 0 <= j < |regions| && p in regions[i] && p in regions[j] ==> i == j
  }

  /** The rectangles lie on the panel, apart from one another. */
  lemma RegionsApart()
    ensures Apart(Regions()) && forall k :: 0 <= k < 6 ==> Regions()[k] <= PANEL
  {
  }

  /** Inside a panel, the frame, the button and the caption keep apart. */
  ghost function ButtonBox(x: nat, y: nat): iset<Point> {
    Rect(x + 2, y + 3, BUTTON_SIZE, BUTTON_SIZE)
  }

  ghost function CaptionBox(x: nat, y: nat): iset<Point> {
    Rect(x + 14, y + 3, ANSWER_LABEL_CHARS * COMPACT_ADVANCE, ANSWER_LABEL_LINES * COMPACT_PITCH)
  }

  lemma PanelPartsApart(x: nat, y: nat)
    ensures var frame, panel := FramePoints(x, y, ANSWER_PANEL_WIDTH, ANSWER_PANEL_HEIGHT), Rect(x, y, ANSWER_PANEL_WIDTH, ANSWER_PANEL_HEIGHT);
      && frame <= panel && ButtonBox(x, y) <= panel && CaptionBox(x, y) <= panel
      && frame * ButtonBox(x, y) == iset{} == frame * CaptionBox(x, y)
      && ButtonBox(x, y) * CaptionBox(x, y) == iset{}
  {
  }

  lemma CaptionStays(faces: Faces, caption: string, x: nat, y: nat)
    ensures LabelPoints(faces, caption, x, y) <= CaptionBox(x, y)
  {
    var lines := Wrapped(caption, ANSWER_LABEL_CHARS, ANSWER_LABEL_LINES);
    WrapKeepsTheBudgets(caption, ANSWER_LABEL_CHARS, ANSWER_LABEL_LINES);
    WrappedStays(faces, lines, |lines|, x + 14, y + 3, ANSWER_LABEL_CHARS);
  }

  lemma HeaderStays(faces: Faces, callsign: string)
    ensures HeaderPoints(faces, callsign) <= Rect(0, 0, WIDTH, HEADER_RULE_Y + 1)
  {
    TextStays(faces, callsign, |callsign|, 0, 0);
  }

  lemma PromptStays(faces: Faces, prompt: string)
    ensures PromptPoints(faces, prompt)
         <= Rect(1, HEADLINE_Y, PROMPT_CHARS * COMPACT_ADVANCE, PROMPT_LINES * COMPACT_PITCH)
  {
    var lines := Wrapped(prompt, PROMPT_CHARS, PROMPT_LINES);
    WrapKeepsTheBudgets(prompt, PROMPT_CHARS, PROMPT_LINES);
    WrappedStays(faces, lines, |lines|, 1, HEADLINE_Y, PROMPT_CHARS);
  }

  lemma {:induction false} PanelStays(faces: Faces, index: nat, x: nat, y: nat, caption: string, p: Point)
    requires p in PanelPoints(faces, index, x, y, caption)
    ensures p in Rect(x, y, ANSWER_PANEL_WIDTH, ANSWER_PANEL_HEIGHT)
  {
    PanelPartsApart(x, y);
    CaptionStays(faces, caption, x, y);
  }

  /** For every callsign, prompt and answers, each element draws only inside
    its own rectangle.
  */
  lemma ElementsStay(faces: Faces, callsign: string, prompt: string, answers: seq<string>, k: nat)
    requires |answers| == 4 && k < 6
    ensures Elements(faces, callsign, prompt, answers)[k] <= Regions()[k]
  {
    match k
    case 0 => HeaderStays(faces, callsign);
    case 1 => PromptStays(faces, prompt);
    case _ =>
      PanelIsElement(faces, callsign, prompt, answers, k - 2);
      var x, y, caption := PANELS[k - 2].0, PANELS[k - 2].1, answers[k - 2];
      forall p | p in PanelPoints(faces, k - 2, x, y, caption)
        ensures p in Rect(x, y, ANSWER_PANEL_WIDTH, ANSWER_PANEL_HEIGHT)
      {
        PanelStays(faces, k - 2, x, y, caption, p);
      }
  }

  /** Things drawn in separate places keep apart. */
  lemma SeparatePlaces(elements: seq<iset<Point>>, regions: seq<iset<Point>>, k: nat)
    requires |elements| == |regions| == 6 && k < 6 && Apart(regions)
    requires forall j :: 0 <= j < 6 ==> elements[j] <= regions[j] <= PANEL
    ensures var all := elements[0] + elements[1] + (elements[2] + elements[3] + elements[4] + elements[5]);
      all <= PANEL && all * regions[k] == elements[k]
  {
    var all := elements[0] + elements[1] + (elements[2] + elements[3] + elements[4] + elements[5]);
    forall p: Point | p in all && p in regions[k] ensures p in elements[k] {
      var j :| 0 <= j < 6 && p in elements[j];
      assert p in regions[j];
    }
  }

  lemma QuestionIsElements(faces: Faces, callsign: string, prompt: string, answers: seq<string>)
    requires |answers| == 4
    ensures var e := Elements(faces, callsign, prompt, answers);
      QuestionPoints(faces, callsign, prompt, answers) == e[0] + e[1] + (e[2] + e[3] + e[4] + e[5])
  {
    assert PanelsPoints(faces, answers, 0) == iset{};
    assert PanelsPoints(faces, answers, 1) == iset{} + PanelElement(faces, answers, 0);
    assert PanelsPoints(faces, answers, 2) == PanelsPoints(faces, answers, 1) + PanelElement(faces, answers, 1);
    assert PanelsPoints(faces, answers, 3) == PanelsPoints(faces, answers, 2) + PanelElement(faces, answers, 2);
  }

  /** Nothing is clipped, and inside a rectangle only its own element shows. */
  lemma RegionsAreSeparate(faces: Faces, callsign: string, prompt: string, answers: seq<string>, k: nat)
    requires |answers| == 4 && k < 6
    ensures QuestionPoints(faces, callsign, prompt, answers) <= PANEL
    ensures QuestionPoints(faces, callsign, prompt, answers) * Regions()[k]
         == Elements(faces, callsign, prompt, answers)[k]
  {
    var elements, regions := Elements(faces, callsign, prompt, answers), Regions();
    RegionsApart();
    forall j | 0 <= j < 6 ensures elements[j] <= regions[j] {
      ElementsStay(faces, callsign, prompt, answers, j);
    }
    SeparatePlaces(elements, regions, k);
    QuestionIsElements(faces, callsign, prompt, answers);
  }

  // ---------- reading characters back ----------

  lemma {:induction false} CompactCell(faces: Faces, text: string, n: nat, x: nat, y: nat, k: nat, column: nat, row: nat)
    requires k < n <= |text| && column < COMPACT_WIDTH && row < COMPACT_HEIGHT
    requires x + k * COMPACT_ADVANCE + COMPACT_WIDTH <= WIDTH
    ensures (x + k * COMPACT_ADVANCE + column, y + row) in CompactTextPoints(faces, text, n, x, y)
       <==> CompactPicture(faces.compact(text[k]))(column, row)
  {
    if k < n - 1 {
      CompactCell(faces, text, n - 1, x, y, k, column, row);
    } else {
      CompactTextStays(faces, text, k, x, y, k);
    }
  }

  lemma {:induction false} WrappedCell(faces: Faces, lines: seq<string>, n: nat, x: nat, y: nat, maxChars: nat,
                      line: nat, k: nat, column: nat, row: nat)
    requires line < n <= |lines| && k < |lines[line]| && column < COMPACT_WIDTH && row < COMPACT_HEIGHT
    requires forall i :: 0 <= i < |lines| ==> |lines[i]| <= maxChars
    requires x + k * COMPACT_ADVANCE + COMPACT_WIDTH <= WIDTH
    ensures (x + k * COMPACT_ADVANCE + column, y + line * COMPACT_PITCH + row) in WrappedPoints(faces, lines, n, x, y)
       <==> CompactPicture(faces.compact(lines[line][k]))(column, row)
  {
    var last := n - 1;
    if line < last {
      WrappedCell(faces, lines, last, x, y, maxChars, line, k, column, row);
      CompactTextStays(faces, lines[last], |lines[last]|, x, y + last * COMPACT_PITCH, maxChars);
    } else {
      CompactCell(faces, lines[line], |lines[line]|, x, y + line * COMPACT_PITCH, k, column, row);
      WrappedStays(faces, lines, line, x, y, maxChars);
    }
  }

  /** Inside a region where only one element shows. */
  lemma InRegion(shown: iset<Point>, region: iset<Point>, element: iset<Point>, p: Point)
    requires shown * region == element && p in region
    ensures p in shown <==> p in element
  {
    assert p in shown <==> p in shown * region;
  }

  lemma PanelIsElement(faces: Faces, callsign: string, prompt: string, answers: seq<string>, index: nat)
    requires |answers| == 4 && index < 4
    ensures Elements(faces, callsign, prompt, answers)[index + 2] == PanelElement(faces, answers, index)
    ensures Regions()[index + 2] == PanelRegion(index)
  {
  }

  lemma OnlyThePanel(faces: Faces, callsign: string, prompt: string, answers: seq<string>, index: nat, p: Point)
    requires |answers| == 4 && index < 4
    requires p in PanelRegion(index)
    ensures p in QuestionPoints(faces, callsign, prompt, answers) <==> p in PanelElement(faces, answers, index)
  {
    var panel, box := PanelElement(faces, answers, index), PanelRegion(index);
    assert QuestionPoints(faces, callsign, prompt, answers) * box == panel by {
      RegionsAreSeparate(faces, callsign, prompt, answers, index + 2);
      PanelIsElement(faces, callsign, prompt, answers, index);
    }
    InRegion(QuestionPoints(faces, callsign, prompt, answers), box, panel, p);
  }

  lemma OnlyTheCaption(faces: Faces, index: nat, x: nat, y: nat, caption: string, p: Point)
    requires p in CaptionBox(x, y)
    ensures p in Rect(x, y, ANSWER_PANEL_WIDTH, ANSWER_PANEL_HEIGHT)
    ensures p in PanelPoints(faces, index, x, y, caption) <==> p in LabelPoints(faces, caption, x, y)
  {
    PanelPartsApart(x, y);
    assert p !in ButtonBox(x, y) && p !in FramePoints(x, y, ANSWER_PANEL_WIDTH, ANSWER_PANEL_HEIGHT);
  }

  /** In the caption's box the screen shows the caption. */
  lemma CaptionOnScreen(faces: Faces, callsign: string, prompt: string, answers: seq<string>, index: nat, x: nat, y: nat, p: Point)
    requires |answers| == 4 && index < 4 && PANELS[index] == (x, y) && p in CaptionBox(x, y)
    ensures p in QuestionPoints(faces, callsign, prompt, answers) <==> p in LabelPoints(faces, answers[index], x, y)
  {
    OnlyTheCaption(faces, index, x, y, answers[index], p);
    OnlyThePanel(faces, callsign, prompt, answers, index, p);
  }

  /** The dot at a column and row of character `k` of a line. */
  function Dot(x: nat, y: nat, line: nat, k: nat, column: nat, row: nat): Point {
    (x + k * COMPACT_ADVANCE + column, y + line * COMPACT_PITCH + row)
  }

  ghost predicate IsDot(lines: seq<string>, line: nat, k: nat, column: nat, row: nat) {
    line < |lines| && k < |lines[line]| && column < COMPACT_WIDTH && row < COMPACT_HEIGHT
  }

  lemma CaptionDot(faces: Faces, caption: string, lines: seq<string>, x: nat, y: nat, line: nat, k: nat, column: nat, row: nat)
    requires lines == Wrapped(caption, ANSWER_LABEL_CHARS, ANSWER_LABEL_LINES)
    requires x <= 65 && IsDot(lines, line, k, column, row)
    ensures Dot(x + 14, y + 3, line, k, column, row) in CaptionBox(x, y)
    ensures Dot(x + 14, y + 3, line, k, column, row) in LabelPoints(faces, caption, x, y)
       <==> CompactPicture(faces.compact(lines[line][k]))(column, row)
  {
    assert |lines| <= ANSWER_LABEL_LINES && forall i :: 0 <= i < |lines| ==> |lines[i]| <= ANSWER_LABEL_CHARS by {
      WrapKeepsTheBudgets(caption, ANSWER_LABEL_CHARS, ANSWER_LABEL_LINES);
    }
    WrappedCell(faces, lines, |lines|, x + 14, y + 3, ANSWER_LABEL_CHARS, line, k, column, row);
  }

  /** Every dot of every character of an answer's wrapped caption can be read
    off the screen.
  */
  lemma CaptionReadsBack(faces: Faces, callsign: string, prompt: string, answers: seq<string>, index: nat, x: nat, y: nat,
                         lines: seq<string>, line: nat, k: nat, column: nat, row: nat)
    requires |answers| == 4 && index < 4 && PANELS[index] == (x, y)
    requires lines == Wrapped(answers[index], ANSWER_LABEL_CHARS, ANSWER_LABEL_LINES)
    requires IsDot(lines, line, k, column, row)
    ensures Dot(x + 14, y + 3, line, k, column, row) in QuestionPoints(faces, callsign, prompt, answers)
       <==> HasBit(faces.compact(lines[line][k])[row], column)
  {
    CaptionDot(faces, answers[index], lines, x, y, line, k, column, row);
    CaptionOnScreen(faces, callsign, prompt, answers, index, x, y, Dot(x + 14, y + 3, line, k, column, row));
  }

  lemma PromptDot(faces: Faces, prompt: string, lines: seq<string>, line: nat, k: nat, column: nat, row: nat)
    requires lines == Wrapped(prompt, PROMPT_CHARS, PROMPT_LINES) && IsDot(lines, line, k, column, row)
    ensures Dot(1, HEADLINE_Y, line, k, column, row) in Regions()[1]
    ensures Dot(1, HEADLINE_Y, line, k, column, row) in PromptPoints(faces, prompt)
       <==> CompactPicture(faces.compact(lines[line][k]))(column, row)
  {
    assert |lines| <= PROMPT_LINES && forall i :: 0 <= i < |lines| ==> |lines[i]| <= PROMPT_CHARS by {
      WrapKeepsTheBudgets(prompt, PROMPT_CHARS, PROMPT_LINES);
    }
    WrappedCell(faces, lines, |lines|, 1, HEADLINE_Y, PROMPT_CHARS, line, k, column, row);
  }

  lemma PromptOnScreen(faces: Faces, callsign: string, prompt: string, answers: seq<string>, p: Point)
    requires |answers| == 4 && p in Regions()[1]
    ensures p in QuestionPoints(faces, callsign, prompt, answers) <==> p in PromptPoints(faces, prompt)
  {
    assert QuestionPoints(faces, callsign, prompt, answers) * Regions()[1] == PromptPoints(faces, prompt) by {
      RegionsAreSeparate(faces, callsign, prompt, answers, 1);
    }
    InRegion(QuestionPoints(faces, callsign, prompt, answers), Regions()[1], PromptPoints(faces, prompt), p);
  }

  /** And every dot of the wrapped prompt. */
  lemma PromptReadsBack(faces: Faces, callsign: string, prompt: string, answers: seq<string>,
                        lines: seq<string>, line: nat, k: nat, column: nat, row: nat)
    requires |answers| == 4 && lines == Wrapped(prompt, PROMPT_CHARS, PROMPT_LINES)
    requires IsDot(lines, line, k, column, row)
    ensures Dot(1, HEADLINE_Y, line, k, column, row) in QuestionPoints(faces, callsign, prompt, answers)
       <==> HasBit(faces.compact(lines[line][k])[row], column)
  {
    PromptDot(faces, prompt, lines, line, k, column, row);
    PromptOnScreen(faces, callsign, prompt, answers, Dot(1, HEADLINE_Y, line, k, column, row));
  }

  // ---------- buttons, header and outlines ----------

  /** The button cluster with one button down. */
  predicate LoneButton(held: BadgeInput.Buttons) {
    (if held.up then 1 else 0) + (if held.right then 1 else 0) + (if held.down then 1 else 0) + (if held.left then 1 else 0) == 1
  }

  /** The picture of the button that is down. */
  function FaceOf(faces: Faces, held: BadgeInput.Buttons): ButtonBits
    requires LoneButton(held)
  {
    if held.up then faces.top else if held.right then faces.right else if held.left then faces.left else faces.down
  }

  /** Pressing and releasing this button, from rest, answers `index`. */
  predicate Answers(held: BadgeInput.Buttons, index: nat, t0: nat, t1: nat, hold: nat) {
    var down := BadgeInput.Advance(BadgeInput.Idle, held, false, t0, hold);
    var up := BadgeInput.Advance(down.state, BadgeInput.RELEASED, false, t1, hold);
    down.choice == Wrappers.Some(BadgeInput.Answer(index)) || up.choice == Wrappers.Some(BadgeInput.Answer(index))
  }

  lemma OnlyTheButton(faces: Faces, index: nat, x: nat, y: nat, caption: string, p: Point)
    requires p in ButtonBox(x, y)
    ensures p in Rect(x, y, ANSWER_PANEL_WIDTH, ANSWER_PANEL_HEIGHT)
    ensures p in PanelPoints(faces, index, x, y, caption) <==> p in ButtonPoints(ButtonOf(faces, index), x + 2, y + 3)
  {
    PanelPartsApart(x, y);
    CaptionStays(faces, caption, x, y);
    assert p !in CaptionBox(x, y) && p !in FramePoints(x, y, ANSWER_PANEL_WIDTH, ANSWER_PANEL_HEIGHT);
  }

  lemma ButtonOfAnswer(faces: Faces, index: nat, held: BadgeInput.Buttons, t0: nat, t1: nat, hold: nat)
    requires LoneButton(held) && Answers(held, index, t0, t1, hold)
    ensures ButtonOf(faces, index) == FaceOf(faces, held)
  {
  }

  lemma ButtonOnScreen(faces: Faces, callsign: string, prompt: string, answers: seq<string>, index: nat, x: nat, y: nat, p: Point)
    requires |answers| == 4 && index < 4 && PANELS[index] == (x, y) && p in ButtonBox(x, y)
    ensures p in QuestionPoints(faces, callsign, prompt, answers) <==> p in ButtonPoints(ButtonOf(faces, index), x + 2, y + 3)
  {
    OnlyTheButton(faces, index, x, y, answers[index], p);
    OnlyThePanel(faces, callsign, prompt, answers, index, p);
  }

  /** A bit of a button's ten rows of two bytes, the low one first. */
  predicate ButtonBit(bits: ButtonBits, column: nat, row: nat)
    requires column < BUTTON_SIZE && row < BUTTON_SIZE
  {
    if column < 8 then HasBit(bits[2 * row], column) else HasBit(bits[2 * row + 1], column - 8)
  }

  lemma ButtonDot(bits: ButtonBits, x: nat, y: nat, column: nat, row: nat)
    requires column < BUTTON_SIZE && row < BUTTON_SIZE
    ensures (x + 2 + column, y + 3 + row) in ButtonBox(x, y)
    ensures (x + 2 + column, y + 3 + row) in ButtonPoints(bits, x + 2, y + 3) <==> ButtonPicture(bits)(column, row)
  {
  }

  lemma PictureBit(bits: ButtonBits, column: nat, row: nat)
    requires column < BUTTON_SIZE && row < BUTTON_SIZE
    ensures ButtonPicture(bits)(column, row) <==> ButtonBit(bits, column, row)
  {
    RowWordBit(bits[2 * row], bits[2 * row + 1], column);
  }

  lemma FaceOnScreen(faces: Faces, callsign: string, prompt: string, answers: seq<string>, index: nat, x: nat, y: nat,
                     face: ButtonBits, column: nat, row: nat)
    requires |answers| == 4 && index < 4 && PANELS[index] == (x, y) && face == ButtonOf(faces, index)
    requires column < BUTTON_SIZE && row < BUTTON_SIZE
    ensures (x + 2 + column, y + 3 + row) in QuestionPoints(faces, callsign, prompt, answers) <==> ButtonPicture(face)(column, row)
  {
    ButtonDot(face, x, y, column, row);
    ButtonOnScreen(faces, callsign, prompt, answers, index, x, y, (x + 2 + column, y + 3 + row));
  }

  /** The panels lie as the buttons do: top and right above, left and down
    below, in two columns that do not meet.
  */
  lemma PanelsLieLikeButtons(faces: Faces)
    ensures var first, second, third, fourth := PANELS[0], PANELS[1], PANELS[2], PANELS[3];
      && ButtonOf(faces, 0) == faces.top && ButtonOf(faces, 1) == faces.right
      && ButtonOf(faces, 2) == faces.left && ButtonOf(faces, 3) == faces.down
      && first.1 == second.1 && third.1 == fourth.1 && first.1 + ANSWER_PANEL_HEIGHT < third.1
      && first.0 == third.0 == 0 && second.0 == fourth.0 == WIDTH - ANSWER_PANEL_WIDTH
  {
  }

  /** Each panel shows, dot by dot, the button whose press gives its answer. */
  lemma ButtonReadsBack(faces: Faces, callsign: string, prompt: string, answers: seq<string>, index: nat, x: nat, y: nat,
                        held: BadgeInput.Buttons, t0: nat, t1: nat, hold: nat, column: nat, row: nat)
    requires |answers| == 4 && index < 4 && PANELS[index] == (x, y)
    requires LoneButton(held) && Answers(held, index, t0, t1, hold)
    requires column < BUTTON_SIZE && row < BUTTON_SIZE
    ensures (x + 2 + column, y + 3 + row) in QuestionPoints(faces, callsign, prompt, answers)
       <==> ButtonBit(FaceOf(faces, held), column, row)
  {
    ButtonOfAnswer(faces, index, held, t0, t1, hold);
    FaceOnScreen(faces, callsign, prompt, answers, index, x, y, FaceOf(faces, held), column, row);
    PictureBit(FaceOf(faces, held), column, row);
  }

  lemma {:induction false} TextCell(faces: Faces, text: string, n: nat, k: nat, column: nat, row: nat)
    requires k < n <= |text| && column < GLYPH_WIDTH && row < GLYPH_HEIGHT
    requires k * GLYPH_ADVANCE + GLYPH_WIDTH <= WIDTH
    ensures (k * GLYPH_ADVANCE + column, row) in TextPoints(faces, text, n, 0, 0)
       <==> GlyphPicture(faces.full(text[k]))(column, row)
  {
    if k < n - 1 {
      TextCell(faces, text, n - 1, k, column, row);
    } else {
      EarlierCells(faces, text, k, k * GLYPH_ADVANCE);
    }
  }

  /** Earlier characters end before this column. */
  lemma {:induction false} EarlierCells(faces: Faces, text: string, n: nat, from: nat)
    requires n <= |text| && n * GLYPH_ADVANCE <= from
    ensures forall p: Point :: p in TextPoints(faces, text, n, 0, 0) ==> p.0 < from
  {
    if n > 0 {
      EarlierCells(faces, text, n - 1, from);
    }
  }

  /** The header shows every character of the callsign that fits, and below it
    a rule across the whole panel.
  */
  lemma HeaderReadsBack(faces: Faces, callsign: string, prompt: string, answers: seq<string>, k: nat, column: nat, row: nat, x: nat)
    requires |answers| == 4 && k < |callsign| && k * GLYPH_ADVANCE + GLYPH_WIDTH <= WIDTH
    requires column < GLYPH_WIDTH && row < GLYPH_HEIGHT && x < WIDTH
    ensures (k * GLYPH_ADVANCE + column, row) in QuestionPoints(faces, callsign, prompt, answers)
       <==> HasBit(faces.full(callsign[k])[column], row)
    ensures (x, HEADER_RULE_Y) in QuestionPoints(faces, callsign, prompt, answers)
  {
    var shown, header := QuestionPoints(faces, callsign, prompt, answers), HeaderPoints(faces, callsign);
    assert shown * Regions()[0] == header by {
      RegionsAreSeparate(faces, callsign, prompt, answers, 0);
    }
    TextCell(faces, callsign, |callsign|, k, column, row);
    InRegion(shown, Regions()[0], header, (k * GLYPH_ADVANCE + column, row));
    InRegion(shown, Regions()[0], header, (x, HEADER_RULE_Y));
  }

  /** How far a coordinate is from the nearer end of a side. */
  function FromEdge(at: nat, start: nat, size: nat): int {
    if at - start <= start + size - 1 - at then at - start else start + size - 1 - at
  }

  /** Outside button and caption a panel shows its outline: the outermost dots
    but for two at each corner, where one dot further in takes their place.
  */
  lemma OutlineReadsBack(faces: Faces, callsign: string, prompt: string, answers: seq<string>, index: nat, x: nat, y: nat, p: Point)
    requires |answers| == 4 && index < 4 && PANELS[index] == (x, y)
    requires p in PanelRegion(index) && p !in ButtonBox(x, y) && p !in CaptionBox(x, y)
    ensures var dx, dy := FromEdge(p.0, x, ANSWER_PANEL_WIDTH), FromEdge(p.1, y, ANSWER_PANEL_HEIGHT);
      p in QuestionPoints(faces, callsign, prompt, answers)
      <==> (dx == 0 && dy >= 2) || (dy == 0 && dx >= 2) || (dx == 1 && dy == 1)
  {
    OnlyThePanel(faces, callsign, prompt, answers, index, p);
    CaptionStays(faces, answers[index], x, y);
    assert p !in LabelPoints(faces, answers[index], x, y);
    assert p !in ButtonPoints(ButtonOf(faces, index), x + 2, y + 3);
  }
}

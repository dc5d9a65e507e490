/** The badge's 128 by 64 framebuffer (badge-screen/src/lib.rs), packed so that
  a byte holds one column of a band of eight rows. Every drawing method is
  refined to the set of points it lights.

  A glyph is any bit pattern of its size; the fonts and the button pictures
  are finite tables and come in as parameters.
*/
module Pixels {
  const WIDTH: nat := 128
  const HEIGHT: nat := 64
  const BUFFER_LEN: nat := WIDTH * HEIGHT / 8

  type Point = (nat, nat)

  function Mask(k: nat): bv8
    requires k < 8
  {
    (1 as bv8) << k
  }

  predicate HasBit(bits: bv8, k: nat) {
    k < 8 && bits & Mask(k) != 0
  }

  /** Setting one bit touches no other. */
  lemma SettingABit(bits: bv8, k: nat, j: nat)
    requires k < 8 && j < 8
    ensures HasBit(bits | Mask(k), j) <==> j == k || HasBit(bits, j)
  {
    assert Mask(0) == 1 && Mask(1) == 2 && Mask(2) == 4 && Mask(3) == 8;
    assert Mask(4) == 16 && Mask(5) == 32 && Mask(6) == 64 && Mask(7) == 128;
  }

  function WideMask(k: nat): bv16
    requires k < 16
  {
    (1 as bv16) << k
  }

  /** A button row as one word: the low byte first. */
  function RowWord(low: bv8, high: bv8): bv16 {
    (low as bv16) | ((high as bv16) << 8)
  }

  lemma RowWordBit(low: bv8, high: bv8, k: nat)
    requires k < 10
    ensures RowWord(low, high) & WideMask(k) != 0 <==> if k < 8 then HasBit(low, k) else HasBit(high, k - 8)
  {
    assert Mask(0) == 1 && Mask(1) == 2 && Mask(2) == 4 && Mask(3) == 8;
    assert Mask(4) == 16 && Mask(5) == 32 && Mask(6) == 64 && Mask(7) == 128;
    assert WideMask(0) == 1 && WideMask(1) == 2 && WideMask(2) == 4 && WideMask(3) == 8 && WideMask(4) == 16;
    assert WideMask(5) == 32 && WideMask(6) == 64 && WideMask(7) == 128 && WideMask(8) == 256 && WideMask(9) == 512;
  }

  predicate OnPanel(p: Point) {
    p.0 < WIDTH && p.1 < HEIGHT
  }

  function Cell(p: Point): (index: nat)
    requires OnPanel(p)
    ensures index < BUFFER_LEN
  {
    p.0 + p.1 / 8 * WIDTH
  }

  predicate IsLit(buffer: seq<bv8>, p: Point)
    requires |buffer| == BUFFER_LEN
  {
    OnPanel(p) && HasBit(buffer[Cell(p)], p.1 % 8)
  }

  /** Two points share a byte exactly in one column of one page. */
  lemma CellsDiffer(p: Point, q: Point)
    requires OnPanel(p) && OnPanel(q) && Cell(p) == Cell(q) && p.1 % 8 == q.1 % 8
    ensures p == q
  {
  }

  /** The buffer holds exactly these points. */
  ghost predicate Shows(buffer: seq<bv8>, shown: iset<Point>)
    requires |buffer| == BUFFER_LEN
  {
    forall p: Point {:trigger IsLit(buffer, p)} :: IsLit(buffer, p) <==> p in shown
  }

  ghost const PANEL: iset<Point> := iset p: Point | OnPanel(p)

  lemma OffPanel(p: Point)
    requires !OnPanel(p)
    ensures forall shown: iset<Point> :: shown + iset{p} * PANEL == shown
  {
  }

  /** Drawing twice is drawing the union. */
  lemma DrawnTogether(canvas: iset<Point>, a: iset<Point>, b: iset<Point>)
    ensures canvas + a * PANEL + b * PANEL == canvas + (a + b) * PANEL
  {
  }

  /** Writing one bit of one byte adds one point. */
  lemma WritingABit(buffer: seq<bv8>, shown: iset<Point>, p: Point)
    requires |buffer| == BUFFER_LEN && OnPanel(p) && Shows(buffer, shown)
    ensures Shows(buffer[Cell(p) := buffer[Cell(p)] | Mask(p.1 % 8)], shown + iset{p} * PANEL)
  {
    var written := buffer[Cell(p) := buffer[Cell(p)] | Mask(p.1 % 8)];
    forall q: Point ensures IsLit(written, q) <==> q in shown + iset{p} * PANEL {
      LitAfter(buffer, p, q);
    }
  }

  lemma LitAfter(buffer: seq<bv8>, p: Point, q: Point)
    requires |buffer| == BUFFER_LEN && OnPanel(p)
    ensures IsLit(buffer[Cell(p) := buffer[Cell(p)] | Mask(p.1 % 8)], q) <==> IsLit(buffer, q) || q == p
  {
    if OnPanel(q) && Cell(q) == Cell(p) {
      SettingABit(buffer[Cell(p)], p.1 % 8, q.1 % 8);
      if p.1 % 8 == q.1 % 8 {
        CellsDiffer(p, q);
      }
    }
  }
}

/** What each drawing routine lights, as sets of points. */
module Pictures {
  import opened Pixels
  import opened TextWrap

  const GLYPH_WIDTH: nat := 5
  const GLYPH_HEIGHT: nat := 7
  const GLYPH_ADVANCE: nat := 6
  const COMPACT_WIDTH: nat := 3
  const COMPACT_HEIGHT: nat := 5
  const COMPACT_ADVANCE: nat := 4
  const COMPACT_PITCH: nat := COMPACT_HEIGHT + 1
  const HEADER_RULE_Y: nat := 8
  const HEADLINE_Y: nat := 11
  const ANSWER_PANEL_WIDTH: nat := 63
  const ANSWER_PANEL_HEIGHT: nat := 16
  const BUTTON_SIZE: nat := 10

  type Glyph = bits: seq<bv8> | |bits| == 5 witness [0, 0, 0, 0, 0]
  type ButtonBits = bits: seq<bv8> | |bits| == 20 witness seq(20, _ => 0)

  datatype Faces = Faces(full: char -> Glyph, compact: char -> Glyph, top: ButtonBits, right: ButtonBits, left: ButtonBits, down: ButtonBits)

  function ButtonOf(faces: Faces, index: nat): ButtonBits {
    match index case 0 => faces.top case 1 => faces.right case 2 => faces.left case _ => faces.down
  }

  /** A picture, as a test of its columns and rows. */
  type Picture = (nat, nat) -> bool

  /** A full-size glyph is five columns of bits. */
  function GlyphPicture(bits: Glyph): Picture {
    (column: nat, row: nat) => column < GLYPH_WIDTH && HasBit(bits[column], row)
  }

  /** A compact glyph is five rows of bits. */
  function CompactPicture(bits: Glyph): Picture {
    (column: nat, row: nat) => row < COMPACT_HEIGHT && HasBit(bits[row], column)
  }

  /** A button is ten rows of two bytes, the low one first. */
  function ButtonPicture(bits: ButtonBits): Picture {
    (column: nat, row: nat) =>
      row < BUTTON_SIZE && column < BUTTON_SIZE && RowWord(bits[2 * row], bits[2 * row + 1]) & WideMask(column) != 0
  }

  ghost function Rect(x: nat, y: nat, width: nat, height: nat): iset<Point> {
    iset p: Point | x <= p.0 < x + width && y <= p.1 < y + height
  }

  ghost function Bitmap(picture: Picture, x: nat, y: nat, width: nat, height: nat): iset<Point> {
    iset p: Point | x <= p.0 < x + width && y <= p.1 < y + height && picture(p.0 - x, p.1 - y)
  }

  ghost function GlyphPoints(bits: Glyph, x: nat, y: nat): iset<Point> {
    Bitmap(GlyphPicture(bits), x, y, GLYPH_WIDTH, GLYPH_HEIGHT)
  }

  ghost function CompactPoints(bits: Glyph, x: nat, y: nat): iset<Point> {
    Bitmap(CompactPicture(bits), x, y, COMPACT_WIDTH, COMPACT_HEIGHT)
  }

  ghost function ButtonPoints(bits: ButtonBits, x: nat, y: nat): iset<Point> {
    Bitmap(ButtonPicture(bits), x, y, BUTTON_SIZE, BUTTON_SIZE)
  }

  /** A bitmap scanned column by column, and row by row, up to a bit. */
  ghost function ColumnScan(picture: Picture, x: nat, y: nat, height: nat, column: nat, row: nat): iset<Point> {
    iset p: Point | x <= p.0 && y <= p.1 < y + height && picture(p.0 - x, p.1 - y)
      && (p.0 < x + column || (p.0 == x + column && p.1 < y + row))
  }

  ghost function RowScan(picture: Picture, x: nat, y: nat, width: nat, column: nat, row: nat): iset<Point> {
    iset p: Point | y <= p.1 && x <= p.0 < x + width && picture(p.0 - x, p.1 - y)
      && (p.1 < y + row || (p.1 == y + row && p.0 < x + column))
  }

  /** The point a bit stands for. */
  ghost function BitPoint(lit: bool, x: nat, y: nat): iset<Point> {
    if lit then iset{(x, y)} else iset{}
  }

  lemma ColumnScanEnds(picture: Picture, x: nat, y: nat, height: nat, column: nat)
    ensures ColumnScan(picture, x, y, height, column, height) == ColumnScan(picture, x, y, height, column + 1, 0)
    ensures ColumnScan(picture, x, y, height, column, 0) == Bitmap(picture, x, y, column, height)
    ensures ColumnScan(picture, x, y, height, 0, 0) == iset{}
  {
  }

  lemma RowScanEnds(picture: Picture, x: nat, y: nat, width: nat, row: nat)
    ensures RowScan(picture, x, y, width, width, row) == RowScan(picture, x, y, width, 0, row + 1)
    ensures RowScan(picture, x, y, width, 0, row) == Bitmap(picture, x, y, width, row)
    ensures RowScan(picture, x, y, width, 0, 0) == iset{}
  {
  }

  /** What a bit adds to a canvas that already shows the scan up to it. */
  lemma ColumnScanStep(canvas: iset<Point>, picture: Picture, x: nat, y: nat, height: nat, column: nat, row: nat)
    requires row < height
    ensures canvas + ColumnScan(picture, x, y, height, column, row) * PANEL + BitPoint(picture(column, row), x + column, y + row) * PANEL
         == canvas + ColumnScan(picture, x, y, height, column, row + 1) * PANEL
  {
    var before, after := ColumnScan(picture, x, y, height, column, row), ColumnScan(picture, x, y, height, column, row + 1);
    assert after == before + BitPoint(picture(column, row), x + column, y + row);
    DrawnTogether(canvas, before, BitPoint(picture(column, row), x + column, y + row));
  }

  lemma RowScanStep(canvas: iset<Point>, picture: Picture, x: nat, y: nat, width: nat, column: nat, row: nat)
    requires column < width
    ensures canvas + RowScan(picture, x, y, width, column, row) * PANEL + BitPoint(picture(column, row), x + column, y + row) * PANEL
         == canvas + RowScan(picture, x, y, width, column + 1, row) * PANEL
  {
    var before, after := RowScan(picture, x, y, width, column, row), RowScan(picture, x, y, width, column + 1, row);
    assert after == before + BitPoint(picture(column, row), x + column, y + row);
    DrawnTogether(canvas, before, BitPoint(picture(column, row), x + column, y + row));
  }

  ghost function LinePoints(fromX: nat, toX: nat, y: nat): iset<Point> {
    iset p: Point | p.1 == y && fromX <= p.0 <= toX
  }

  /** A rectangle's outline with its corners cut. */
  ghost function FramePoints(x: nat, y: nat, width: nat, height: nat): iset<Point>
    requires width >= 2 && height >= 2
  {
    iset p: Point |
      || (x + 2 <= p.0 < x + width - 2 && (p.1 == y || p.1 == y + height - 1))
      || (y + 2 <= p.1 < y + height - 2 && (p.0 == x || p.0 == x + width - 1))
      || ((p.0 == x + 1 || p.0 == x + width - 2) && (p.1 == y + 1 || p.1 == y + height - 2))
  }

  /** The first `n` characters of a text; one that does not fit is not begun. */
  ghost function TextPoints(faces: Faces, text: string, n: nat, x: nat, y: nat): iset<Point>
    requires n <= |text|
  {
    if n == 0 then iset{}
    else
      var at := x + (n - 1) * GLYPH_ADVANCE;
      TextPoints(faces, text, n - 1, x, y)
        + if at + GLYPH_WIDTH > WIDTH then iset{} else GlyphPoints(faces.full(text[n - 1]), at, y)
  }

  ghost function CompactTextPoints(faces: Faces, text: string, n: nat, x: nat, y: nat): iset<Point>
    requires n <= |text|
  {
    if n == 0 then iset{}
    else
      var at := x + (n - 1) * COMPACT_ADVANCE;
      CompactTextPoints(faces, text, n - 1, x, y)
        + if at + COMPACT_WIDTH > WIDTH then iset{} else CompactPoints(faces.compact(text[n - 1]), at, y)
  }

  lemma {:induction false} TextStops(faces: Faces, text: string, i: nat, n: nat, x: nat, y: nat)
    requires i <= n <= |text| && x + i * GLYPH_ADVANCE + GLYPH_WIDTH > WIDTH
    ensures TextPoints(faces, text, n, x, y) == TextPoints(faces, text, i, x, y)
  {
    if i < n {
      TextStops(faces, text, i, n - 1, x, y);
    }
  }

  lemma {:induction false} CompactTextStops(faces: Faces, text: string, i: nat, n: nat, x: nat, y: nat)
    requires i <= n <= |text| && x + i * COMPACT_ADVANCE + COMPACT_WIDTH > WIDTH
    ensures CompactTextPoints(faces, text, n, x, y) == CompactTextPoints(faces, text, i, x, y)
  {
    if i < n {
      CompactTextStops(faces, text, i, n - 1, x, y);
    }
  }

  ghost function WrappedPoints(faces: Faces, lines: seq<string>, n: nat, x: nat, y: nat): iset<Point>
    requires n <= |lines|
  {
    if n == 0 then iset{}
    else
      WrappedPoints(faces, lines, n - 1, x, y)
        + CompactTextPoints(faces, lines[n - 1], |lines[n - 1]|, x, y + (n - 1) * COMPACT_PITCH)
  }

  /** What one more character, or one more line, adds to a canvas. */
  lemma TextStep(canvas: iset<Point>, faces: Faces, text: string, i: nat, x: nat, y: nat)
    requires i < |text| && x + i * GLYPH_ADVANCE + GLYPH_WIDTH <= WIDTH
    ensures canvas + TextPoints(faces, text, i, x, y) * PANEL
              + GlyphPoints(faces.full(text[i]), x + i * GLYPH_ADVANCE, y) * PANEL
         == canvas + TextPoints(faces, text, i + 1, x, y) * PANEL
  {
    DrawnTogether(canvas, TextPoints(faces, text, i, x, y), GlyphPoints(faces.full(text[i]), x + i * GLYPH_ADVANCE, y));
  }

  lemma CompactTextStep(canvas: iset<Point>, faces: Faces, text: string, i: nat, x: nat, y: nat)
    requires i < |text| && x + i * COMPACT_ADVANCE + COMPACT_WIDTH <= WIDTH
    ensures canvas + CompactTextPoints(faces, text, i, x, y) * PANEL
              + CompactPoints(faces.compact(text[i]), x + i * COMPACT_ADVANCE, y) * PANEL
         == canvas + CompactTextPoints(faces, text, i + 1, x, y) * PANEL
  {
    DrawnTogether(canvas, CompactTextPoints(faces, text, i, x, y),
      CompactPoints(faces.compact(text[i]), x + i * COMPACT_ADVANCE, y));
  }

  lemma WrappedStep(canvas: iset<Point>, faces: Faces, lines: seq<string>, i: nat, x: nat, y: nat)
    requires i < |lines|
    ensures canvas + WrappedPoints(faces, lines, i, x, y) * PANEL
              + CompactTextPoints(faces, lines[i], |lines[i]|, x, y + i * COMPACT_PITCH) * PANEL
         == canvas + WrappedPoints(faces, lines, i + 1, x, y) * PANEL
  {
    DrawnTogether(canvas, WrappedPoints(faces, lines, i, x, y),
      CompactTextPoints(faces, lines[i], |lines[i]|, x, y + i * COMPACT_PITCH));
  }

  lemma AbovePanels(header: iset<Point>, prompt: iset<Point>)
    ensures iset{} + header * PANEL + prompt * PANEL == (header + prompt + iset{}) * PANEL
  {
  }

  lemma PanelStep(above: iset<Point>, faces: Faces, answers: seq<string>, i: nat)
    requires i < |answers| == 4
    ensures (above + PanelsPoints(faces, answers, i)) * PANEL
              + PanelPoints(faces, i, PANELS[i].0, PANELS[i].1, answers[i]) * PANEL
         == (above + PanelsPoints(faces, answers, i + 1)) * PANEL
  {
    var before, panel := PanelsPoints(faces, answers, i), PanelPoints(faces, i, PANELS[i].0, PANELS[i].1, answers[i]);
    Gathered(above, before, panel);
  }

  lemma Gathered(a: iset<Point>, b: iset<Point>, c: iset<Point>)
    ensures (a + b) * PANEL + c * PANEL == (a + (b + c)) * PANEL
  {
  }

  ghost function HeaderPoints(faces: Faces, callsign: string): iset<Point> {
    TextPoints(faces, callsign, |callsign|, 0, 0) + LinePoints(0, WIDTH - 1, HEADER_RULE_Y)
  }

  ghost function PromptPoints(faces: Faces, prompt: string): iset<Point> {
    var lines := Wrapped(prompt, PROMPT_CHARS, PROMPT_LINES);
    WrappedPoints(faces, lines, |lines|, 1, HEADLINE_Y)
  }

  ghost function LabelPoints(faces: Faces, caption: string, x: nat, y: nat): iset<Point> {
    var lines := Wrapped(caption, ANSWER_LABEL_CHARS, ANSWER_LABEL_LINES);
    WrappedPoints(faces, lines, |lines|, x + 14, y + 3)
  }

  ghost function PanelPoints(faces: Faces, index: nat, x: nat, y: nat, caption: string): iset<Point> {
    FramePoints(x, y, ANSWER_PANEL_WIDTH, ANSWER_PANEL_HEIGHT)
    + ButtonPoints(ButtonOf(faces, index), x + 2, y + 3)
    + LabelPoints(faces, caption, x, y)
  }

  /** Where the four panels stand. */
  const PANELS: seq<Point> := [(0, 30), (65, 30), (0, 48), (65, 48)]

  ghost function PanelsPoints(faces: Faces, answers: seq<string>, n: nat): iset<Point>
    requires n <= |answers| == 4
  {
    if n == 0 then iset{}
    else
      PanelsPoints(faces, answers, n - 1)
        + PanelPoints(faces, n - 1, PANELS[n - 1].0, PANELS[n - 1].1, answers[n - 1])
  }

  ghost function QuestionPoints(faces: Faces, callsign: string, prompt: string, answers: seq<string>): iset<Point>
    requires |answers| == 4
  {
    HeaderPoints(faces, callsign) + PromptPoints(faces, prompt) + PanelsPoints(faces, answers, 4)
  }
}

module Canvases {
  import opened Pixels
  import opened Pictures
  import opened TextWrap

  class Canvas {
    const buffer: array<bv8>

    /** The points lit. */
    ghost var shown: iset<Point>

    ghost predicate Valid()
      reads this, buffer
    {
      buffer.Length == BUFFER_LEN && Shows(buffer[..], shown)
    }

    constructor ()
      ensures Valid() && fresh(buffer) && shown == iset{}
    {
      buffer := new bv8[BUFFER_LEN](_ => 0);
      shown := iset{};
    }

    method Clear()
      requires Valid()
      modifies this`shown, buffer
      ensures Valid() && shown == iset{}
    {
      for i := 0 to buffer.Length
        invariant forall k :: 0 <= k < i ==> buffer[k] == 0
      {
        buffer[i] := 0;
      }
      shown := iset{};
    }

    /** Dark outside the panel. */
    method Lit(x: nat, y: nat) returns (lit: bool)
      requires Valid()
      ensures lit <==> (x, y) in shown
    {
      assert (x, y) in shown <==> IsLit(buffer[..], (x, y));
      if x >= WIDTH || y >= HEIGHT { return false; }
      lit := buffer[x + y / 8 * WIDTH] & Mask(y % 8) != 0;
    }

    /** Lights exactly one point, or none outside the panel. */
    method SetPixel(x: nat, y: nat)
      requires Valid()
      modifies this`shown, buffer
      ensures Valid() && shown == old(shown) + iset{(x, y)} * PANEL
    {
      if x < WIDTH && y < HEIGHT {
        ghost var before := buffer[..];
        WritingABit(before, shown, (x, y));
        buffer[x + y / 8 * WIDTH] := buffer[x + y / 8 * WIDTH] | Mask(y % 8);
        shown := shown + iset{(x, y)} * PANEL;
        assert buffer[..] == before[Cell((x, y)) := before[Cell((x, y))] | Mask(y % 8)];
      } else {
        OffPanel((x, y));
      }
    }

    method SetBit(lit: bool, x: nat, y: nat)
      requires Valid()
      modifies this`shown, buffer
      ensures Valid() && shown == old(shown) + BitPoint(lit, x, y) * PANEL
    {
      if lit {
        SetPixel(x, y);
      }
    }

    method HLine(fromX: nat, toX: nat, y: nat)
      requires Valid()
      modifies this`shown, buffer
      ensures Valid() && shown == old(shown) + LinePoints(fromX, toX, y) * PANEL
    {
      if toX < fromX { return; }
      for x := fromX to toX + 1
        invariant Valid() && shown == old(shown) + (iset p: Point | p.1 == y && fromX <= p.0 < x) * PANEL
      {
        SetPixel(x, y);
      }
    }

    /** A rectangle's outline: its top and bottom, its sides, its cut corners. */
    method Frame(x: nat, y: nat, width: nat, height: nat)
      requires Valid() && width >= 2 && height >= 2
      modifies this`shown, buffer
      ensures Valid() && shown == old(shown) + FramePoints(x, y, width, height) * PANEL
    {
      ghost var start := shown;
      FrameRows(x, y, width, height);
      FrameSides(x, y, width, height);
      var corners := [(x + 1, y + 1), (x + width - 2, y + 1), (x + 1, y + height - 2), (x + width - 2, y + height - 2)];
      SetPixels(corners);
      ghost var rows, sides := EdgeRows(x, y, x + width - 2, height), EdgeSides(x, y, width, y + height - 2);
      DrawnTogether(start, rows, sides);
      DrawnTogether(start, rows + sides, PointSet(corners));
      FrameParts(x, y, width, height, corners);
    }

    static lemma FrameParts(x: nat, y: nat, width: nat, height: nat, corners: seq<Point>)
      requires width >= 2 && height >= 2
      requires corners == [(x + 1, y + 1), (x + width - 2, y + 1), (x + 1, y + height - 2), (x + width - 2, y + height - 2)]
      ensures EdgeRows(x, y, x + width - 2, height) + EdgeSides(x, y, width, y + height - 2) + PointSet(corners)
           == FramePoints(x, y, width, height)
    {
    }

    static ghost function PointSet(points: seq<Point>): iset<Point> {
      iset p: Point | p in points
    }

    method SetPixels(points: seq<Point>)
      requires Valid()
      modifies this`shown, buffer
      ensures Valid() && shown == old(shown) + PointSet(points) * PANEL
    {
      ghost var start := shown;
      for i := 0 to |points|
        invariant Valid() && shown == start + PointSet(points[..i]) * PANEL
      {
        SetPixel(points[i].0, points[i].1);
        DrawnTogether(start, PointSet(points[..i]), iset{points[i]});
        assert PointSet(points[..i + 1]) == PointSet(points[..i]) + iset{points[i]};
      }
      assert points[..|points|] == points;
    }

    method FrameRows(x: nat, y: nat, width: nat, height: nat)
      requires Valid() && width >= 2 && height >= 2
      modifies this`shown, buffer
      ensures Valid() && shown == old(shown) + EdgeRows(x, y, x + width - 2, height) * PANEL
    {
      ghost var start := shown;
      var column := x + 2;
      while column < x + width - 2
        invariant x + 2 <= column && (column <= x + width - 2 || column == x + 2)
        invariant Valid() && shown == start + EdgeRows(x, y, column, height) * PANEL
      {
        SetPixel(column, y);
        SetPixel(column, y + height - 1);
        DrawnTogether(start, EdgeRows(x, y, column, height), iset{(column, y)});
        DrawnTogether(start, EdgeRows(x, y, column, height) + iset{(column, y)}, iset{(column, y + height - 1)});
        assert EdgeRows(x, y, column + 1, height)
            == EdgeRows(x, y, column, height) + iset{(column, y)} + iset{(column, y + height - 1)};
        column := column + 1;
      }
      assert EdgeRows(x, y, column, height) == EdgeRows(x, y, x + width - 2, height);
    }

    method FrameSides(x: nat, y: nat, width: nat, height: nat)
      requires Valid() && width >= 2 && height >= 2
      modifies this`shown, buffer
      ensures Valid() && shown == old(shown) + EdgeSides(x, y, width, y + height - 2) * PANEL
    {
      ghost var start := shown;
      var row := y + 2;
      while row < y + height - 2
        invariant y + 2 <= row && (row <= y + height - 2 || row == y + 2)
        invariant Valid() && shown == start + EdgeSides(x, y, width, row) * PANEL
      {
        SetPixel(x, row);
        SetPixel(x + width - 1, row);
        DrawnTogether(start, EdgeSides(x, y, width, row), iset{(x, row)});
        DrawnTogether(start, EdgeSides(x, y, width, row) + iset{(x, row)}, iset{(x + width - 1, row)});
        assert EdgeSides(x, y, width, row + 1)
            == EdgeSides(x, y, width, row) + iset{(x, row)} + iset{(x + width - 1, row)};
        row := row + 1;
      }
      assert EdgeSides(x, y, width, row) == EdgeSides(x, y, width, y + height - 2);
    }

    /** The scan of a full-size glyph: columns, then the bits of each. */
    method DrawByColumns(picture: Picture, x: nat, y: nat, width: nat, height: nat)
      requires Valid()
      modifies this`shown, buffer
      ensures Valid() && shown == old(shown) + Bitmap(picture, x, y, width, height) * PANEL
    {
      ghost var start := shown;
      ColumnScanEnds(picture, x, y, height, 0);
      for column := 0 to width
        invariant Valid() && shown == start + ColumnScan(picture, x, y, height, column, 0) * PANEL
      {
        for row := 0 to height
          invariant Valid() && shown == start + ColumnScan(picture, x, y, height, column, row) * PANEL
        {
          SetBit(picture(column, row), x + column, y + row);
          ColumnScanStep(start, picture, x, y, height, column, row);
        }
        ColumnScanEnds(picture, x, y, height, column);
      }
      ColumnScanEnds(picture, x, y, height, width);
    }

    /** The scan of a compact glyph and of a button: rows, then the bits of each. */
    method DrawByRows(picture: Picture, x: nat, y: nat, width: nat, height: nat)
      requires Valid()
      modifies this`shown, buffer
      ensures Valid() && shown == old(shown) + Bitmap(picture, x, y, width, height) * PANEL
    {
      ghost var start := shown;
      RowScanEnds(picture, x, y, width, 0);
      for row := 0 to height
        invariant Valid() && shown == start + RowScan(picture, x, y, width, 0, row) * PANEL
      {
        for column := 0 to width
          invariant Valid() && shown == start + RowScan(picture, x, y, width, column, row) * PANEL
        {
          SetBit(picture(column, row), x + column, y + row);
          RowScanStep(start, picture, x, y, width, column, row);
        }
        RowScanEnds(picture, x, y, width, row);
      }
      RowScanEnds(picture, x, y, width, height);
    }

    method DrawGlyph(bits: Glyph, x: nat, y: nat)
      requires Valid()
      modifies this`shown, buffer
      ensures Valid() && shown == old(shown) + GlyphPoints(bits, x, y) * PANEL
    {
      DrawByColumns(GlyphPicture(bits), x, y, GLYPH_WIDTH, GLYPH_HEIGHT);
    }

    method DrawCompactGlyph(bits: Glyph, x: nat, y: nat)
      requires Valid()
      modifies this`shown, buffer
      ensures Valid() && shown == old(shown) + CompactPoints(bits, x, y) * PANEL
    {
      DrawByRows(CompactPicture(bits), x, y, COMPACT_WIDTH, COMPACT_HEIGHT);
    }

    method ButtonGlyph(bits: ButtonBits, x: nat, y: nat)
      requires Valid()
      modifies this`shown, buffer
      ensures Valid() && shown == old(shown) + ButtonPoints(bits, x, y) * PANEL
    {
      DrawByRows(ButtonPicture(bits), x, y, BUTTON_SIZE, BUTTON_SIZE);
    }

    method DrawText(faces: Faces, text: string, x: nat, y: nat)
      requires Valid()
      modifies this`shown, buffer
      ensures Valid() && shown == old(shown) + TextPoints(faces, text, |text|, x, y) * PANEL
    {
      ghost var start := shown;
      for i := 0 to |text|
        invariant Valid() && shown == start + TextPoints(faces, text, i, x, y) * PANEL
      {
        var at := x + i * GLYPH_ADVANCE;
        if at + GLYPH_WIDTH > WIDTH {
          TextStops(faces, text, i, |text|, x, y);
          break;
        }
        DrawGlyph(faces.full(text[i]), at, y);
        TextStep(start, faces, text, i, x, y);
      }
    }

    method DrawCompactText(faces: Faces, text: string, x: nat, y: nat)
      requires Valid()
      modifies this`shown, buffer
      ensures Valid() && shown == old(shown) + CompactTextPoints(faces, text, |text|, x, y) * PANEL
    {
      ghost var start := shown;
      for i := 0 to |text|
        invariant Valid() && shown == start + CompactTextPoints(faces, text, i, x, y) * PANEL
      {
        var at := x + i * COMPACT_ADVANCE;
        if at + COMPACT_WIDTH > WIDTH {
          CompactTextStops(faces, text, i, |text|, x, y);
          break;
        }
        DrawCompactGlyph(faces.compact(text[i]), at, y);
        CompactTextStep(start, faces, text, i, x, y);
      }
    }

    method DrawLines(faces: Faces, lines: seq<string>, x: nat, y: nat)
      requires Valid()
      modifies this`shown, buffer
      ensures Valid() && shown == old(shown) + WrappedPoints(faces, lines, |lines|, x, y) * PANEL
    {
      ghost var start := shown;
      for i := 0 to |lines|
        invariant Valid() && shown == start + WrappedPoints(faces, lines, i, x, y) * PANEL
      {
        DrawCompactText(faces, lines[i], x, y + i * COMPACT_PITCH);
        WrappedStep(start, faces, lines, i, x, y);
      }
    }

    method DrawWrapped(faces: Faces, text: string, maxChars: nat, maxLines: nat, x: nat, y: nat)
      requires Valid() && Budgets(maxChars, maxLines)
      modifies this`shown, buffer
      ensures var lines := Wrapped(text, maxChars, maxLines);
        Valid() && shown == old(shown) + WrappedPoints(faces, lines, |lines|, x, y) * PANEL
    {
      var lines := Wrap(text, maxChars, maxLines);
      DrawLines(faces, lines, x, y);
    }

    method Header(faces: Faces, callsign: string)
      requires Valid()
      modifies this`shown, buffer
      ensures Valid() && shown == old(shown) + HeaderPoints(faces, callsign) * PANEL
    {
      ghost var start := shown;
      DrawText(faces, callsign, 0, 0);
      HLine(0, WIDTH - 1, HEADER_RULE_Y);
      DrawnTogether(start, TextPoints(faces, callsign, |callsign|, 0, 0), LinePoints(0, WIDTH - 1, HEADER_RULE_Y));
    }

    method AnswerPanel(faces: Faces, index: nat, x: nat, y: nat, caption: string)
      requires Valid()
      modifies this`shown, buffer
      ensures Valid() && shown == old(shown) + PanelPoints(faces, index, x, y, caption) * PANEL
    {
      ghost var start := shown;
      ghost var frame := FramePoints(x, y, ANSWER_PANEL_WIDTH, ANSWER_PANEL_HEIGHT);
      ghost var button := ButtonPoints(ButtonOf(faces, index), x + 2, y + 3);
      Frame(x, y, ANSWER_PANEL_WIDTH, ANSWER_PANEL_HEIGHT);
      ButtonGlyph(ButtonOf(faces, index), x + 2, y + 3);
      DrawnTogether(start, frame, button);
      DrawWrapped(faces, caption, ANSWER_LABEL_CHARS, ANSWER_LABEL_LINES, x + 14, y + 3);
      DrawnTogether(start, frame + button, LabelPoints(faces, caption, x, y));
    }

    /** The question screen, whatever was shown before. */
    method Question(faces: Faces, callsign: string, prompt: string, answers: seq<string>)
      requires Valid() && |answers| == 4
      modifies this`shown, buffer
      ensures Valid() && shown == QuestionPoints(faces, callsign, prompt, answers) * PANEL
    {
      Clear();
      Header(faces, callsign);
      DrawWrapped(faces, prompt, PROMPT_CHARS, PROMPT_LINES, 1, HEADLINE_Y);
      ghost var above := HeaderPoints(faces, callsign) + PromptPoints(faces, prompt);
      AbovePanels(HeaderPoints(faces, callsign), PromptPoints(faces, prompt));
      for index := 0 to 4
        invariant Valid() && shown == (above + PanelsPoints(faces, answers, index)) * PANEL
      {
        AnswerPanel(faces, index, PANELS[index].0, PANELS[index].1, answers[index]);
        PanelStep(above, faces, answers, index);
      }
    }

    /** The outline's top and bottom rows up to a column, and its sides up to a row. */
    static ghost function EdgeRows(x: nat, y: nat, column: nat, height: nat): iset<Point>
      requires height >= 2
    {
      iset p: Point | x + 2 <= p.0 < column && (p.1 == y || p.1 == y + height - 1)
    }

    static ghost function EdgeSides(x: nat, y: nat, width: nat, row: nat): iset<Point>
      requires width >= 2
    {
      iset p: Point | y + 2 <= p.1 < row && (p.0 == x || p.0 == x + width - 1)
    }
  }
}

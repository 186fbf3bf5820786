/** Where the cells of a drawn diagram are: lifelines, shafts, messages, names and the marked line. */
module SequenceAlignment {
  import opened TextBuilder
  import opened SequenceLayout

  /** The first cell of column i. */
  function Start(l: Layout, i: nat): nat
    requires i <= |l.columns|
  {
    if i == 0 then 0 else Start(l, i - 1) + l.columns[i - 1].gap + 2 * l.half + 1
  }

  /** The cell of lifeline i. */
  function Col(l: Layout, i: nat): nat
    requires i < |l.columns|
  {
    Start(l, i) + l.columns[i].gap + l.half
  }

  function GapSum(l: Layout, n: nat): nat
    requires n <= |l.columns|
  {
    if n == 0 then 0 else GapSum(l, n - 1) + l.columns[n - 1].gap
  }

  lemma {:induction false} StartSum(l: Layout, i: nat, boxSize: nat)
    requires i <= |l.columns| && boxSize == 2 * l.half + 1
    ensures Start(l, i) == GapSum(l, i) + i * boxSize
  {
    if i > 0 {
      StartSum(l, i - 1, boxSize);
      assert i * boxSize == (i - 1) * boxSize + boxSize;
    }
  }

  /** Lifeline i is half a box after i boxes and i + 1 gaps. */
  lemma ColumnFormula(l: Layout, i: nat, boxSize: nat)
    requires i < |l.columns| && boxSize == 2 * l.half + 1
    ensures Col(l, i) == GapSum(l, i + 1) + i * boxSize + boxSize / 2
  {
    StartSum(l, i, boxSize);
  }

  lemma {:induction false} StartGrows(l: Layout, i: nat, j: nat)
    requires i < j <= |l.columns|
    ensures Col(l, i) + l.half + 1 <= Start(l, j)
  {
    if i < j - 1 {
      StartGrows(l, i, j - 1);
    }
  }

  // Rows of full width

  predicate Sound(l: Layout, row: Row) {
    match row
    case Border(left, middle, right) => true
    case NameRow => true
    case Crash(part, struck, dead) => true
    case Annotation(link, dead) => HasRoom(l, link)
    case LoopTop(link, dead) => HasRoom(l, link) && link.from == link.to
    case LoopBottom(link, dead) => HasRoom(l, link) && link.from == link.to
    case Shaft(link, dead) => HasRoom(l, link) && link.from != link.to
  }

  lemma NameWidth(column: Column, half: nat)
    requires |column.name| + 3 <= 2 * half
    ensures |NameSegment(column, half)| == column.gap + 2 * half + 1
  {
  }

  lemma BorderCells(row: Row, gap: nat, half: nat)
    requires row.Border? && half >= 2
    ensures |BorderSegment(row, gap, half)| == gap + 2 * half + 1
    ensures BorderSegment(row, gap, half)[gap + half] == row.middle
  {
  }

  lemma CrashCells(row: Row, gap: nat, half: nat, i: nat)
    requires row.Crash? && half >= 2
    ensures |CrashSegment(row, gap, half, i)| == gap + 2 * half + 1
    ensures CrashSegment(row, gap, half, i)[gap + half] == Glyph(row, i)
  {
    var middle := if i in row.struck then Shape(row.part) else if i in row.dead then "     " else "  │  ";
    assert middle[2] == Glyph(row, i);
  }

  lemma FramedCells(pad: char, gap: nat, left: string, middle: char, right: string, half: nat)
    requires |left| == |right| == half
    ensures
      var s := Framed(pad, gap, left, middle, right);
      && |s| == gap + 2 * half + 1
      && s[gap + half] == middle
      && (forall o | 0 <= o < gap :: s[o] == pad)
      && (forall o | gap <= o < gap + half :: s[o] == left[o - gap])
      && (forall o | gap + half < o < |s| :: s[o] == right[o - gap - half - 1])
  {
  }

  lemma LoopCells(row: Row, gap: nat, half: nat, i: nat)
    requires (row.LoopTop? || row.LoopBottom?) && half >= 2
    ensures |LoopSegment(row, gap, half, i)| == gap + 2 * half + 1
    ensures LoopSegment(row, gap, half, i)[gap + half] == Glyph(row, i)
  {
  }

  lemma ShaftCells(row: Row, gap: nat, half: nat, i: nat)
    requires row.Shaft?
    ensures
      var s := ShaftSegment(row, gap, half, i);
      var stroke := Stroke(row.link.dropped);
      && |s| == gap + 2 * half + 1
      && s[gap + half] == Glyph(row, i)
      && (forall o | 0 <= o < gap + half :: s[o] == if Crosses(row.link, i) then stroke else ' ')
      && (forall o | gap + half < o < |s| :: s[o] == if Leaves(row.link, i) then stroke else ' ')
  {
    var stroke := Stroke(row.link.dropped);
    FramedCells(if Crosses(row.link, i) then stroke else ' ', gap,
                Cells(if Crosses(row.link, i) then stroke else ' ', half), Glyph(row, i),
                Cells(if Leaves(row.link, i) then stroke else ' ', half), half);
  }

  lemma FullSegment(l: Layout, row: Row, i: nat)
    requires BoxesFit(l) && i < |l.columns| && !row.Annotation?
    ensures |Segment(l, row, i)| == l.columns[i].gap + 2 * l.half + 1
    ensures !row.NameRow? ==> Segment(l, row, i)[l.columns[i].gap + l.half] == Glyph(row, i)
  {
    var gap := l.columns[i].gap;
    match row
    case Border(left, middle, right) => BorderCells(row, gap, l.half);
    case NameRow => NameWidth(l.columns[i], l.half);
    case Crash(part, struck, dead) => CrashCells(row, gap, l.half, i);
    case LoopTop(link, dead) => LoopCells(row, gap, l.half, i);
    case LoopBottom(link, dead) => LoopCells(row, gap, l.half, i);
    case Shaft(link, dead) => ShaftCells(row, gap, l.half, i);
  }

  /** Each part fills its column, but for the first, which stops `short` cells earlier. */
  predicate Fills(l: Layout, parts: seq<string>, short: nat) {
    && |parts| == |l.columns|
    && forall i: nat | i < |parts| ::
         |parts[i]| == l.columns[i].gap + 2 * l.half + 1 - if i == 0 then short else 0
  }

  lemma {:induction false} WidthOfParts(l: Layout, parts: seq<string>, short: nat, n: nat)
    requires Fills(l, parts, short) && n <= |parts|
    ensures |Concat(parts, n)| == Start(l, n) - if n > 0 then short else 0
  {
    if n > 0 {
      WidthOfParts(l, parts, short, n - 1);
    }
  }

  lemma FullRowFills(l: Layout, row: Row)
    requires BoxesFit(l) && !row.Annotation?
    ensures Fills(l, Segments(l, row), 0)
  {
    forall i: nat | i < |l.columns|
      ensures |Segments(l, row)[i]| == l.columns[i].gap + 2 * l.half + 1
    {
      FullSegment(l, row, i);
    }
  }

  // Annotation rows

  lemma AnnotationCells(row: Row, gap: nat, half: nat, i: nat)
    requires row.Annotation? && (i == row.link.gap ==> |row.link.message| <= 2 * half + gap)
    ensures
      var s := AnnotationSegment(row, gap, half, i);
      && |s| == gap + half + 1 + (if i != 0 || i == row.link.gap then half else 0)
      && s[|s| - 1] == Glyph(row, i)
  {
  }

  /** With two nodes no message stands left of the first lifeline. */
  lemma GapIsInside(l: Layout, link: Link)
    requires LinkFits(link, |l.columns|)
    ensures link.gap == 0 <==> |l.columns| == 1
  {
  }

  lemma MessageRowFills(l: Layout, row: Row)
    requires row.Annotation? && HasRoom(l, row.link)
    ensures Fills(l, Segments(l, row), if row.link.gap == 0 then 0 else l.half)
  {
    forall i: nat | i < |l.columns|
      ensures
        |Segments(l, row)[i]|
        == l.columns[i].gap + 2 * l.half + 1 - if i == 0 && row.link.gap != 0 then l.half else 0
    {
      AnnotationCells(row, l.columns[i].gap, l.half, i);
    }
  }

  /** A row with a message ends at the last lifeline, unless the diagram has only one. */
  lemma MessageRowEndsAtLastLifelineIff(l: Layout, row: Row)
    requires BoxesFit(l) && row.Annotation? && HasRoom(l, row.link)
    ensures |RowText(l, row)| == Col(l, |l.columns| - 1) + 1 <==> |l.columns| >= 2
  {
    GapIsInside(l, row.link);
    MessageRowFills(l, row);
    WidthOfParts(l, Segments(l, row), if row.link.gap == 0 then 0 else l.half, |l.columns|);
  }

  // Lifelines

  lemma CellAtStart(l: Layout, parts: seq<string>, short: nat, i: nat, o: nat, c: int)
    requires Fills(l, parts, short) && i < |parts| && o < |parts[i]|
    requires c == Start(l, i) + o - if i > 0 then short else 0
    ensures 0 <= c < |Concat(parts, |parts|)| && Concat(parts, |parts|)[c] == parts[i][o]
  {
    WidthOfParts(l, parts, short, i);
    CellOfPart(parts, i, o);
  }

  lemma TextAtStart(l: Layout, parts: seq<string>, short: nat, i: nat, from: nat, text: string, p: int)
    requires Fills(l, parts, short) && i < |parts| && from + |text| <= |parts[i]|
    requires parts[i][from..from + |text|] == text
    requires p == Start(l, i) + from - if i > 0 then short else 0
    ensures 0 <= p <= p + |text| <= |Concat(parts, |parts|)|
    ensures Concat(parts, |parts|)[p..p + |text|] == text
  {
    WidthOfParts(l, parts, short, i);
    SliceOfPart(parts, i, from, from + |text|);
  }

  lemma FullRowCell(l: Layout, row: Row, i: nat, o: nat, c: int, cell: char)
    requires BoxesFit(l) && !row.Annotation? && i < |l.columns| && c == Start(l, i) + o
    requires o < |Segments(l, row)[i]| && Segments(l, row)[i][o] == cell
    ensures 0 <= c < |RowText(l, row)| && RowText(l, row)[c] == cell
  {
    FullRowFills(l, row);
    CellAtStart(l, Segments(l, row), 0, i, o, c);
  }

  lemma GlyphInSegment(l: Layout, row: Row, i: nat, o: nat)
    requires BoxesFit(l) && !row.Annotation? && !row.NameRow? && i < |l.columns| && o == l.columns[i].gap + l.half
    ensures o < |Segments(l, row)[i]| && Segments(l, row)[i][o] == Glyph(row, i)
  {
    FullSegment(l, row, i);
  }

  lemma FullRowLifeline(l: Layout, row: Row, i: nat)
    requires BoxesFit(l) && !row.Annotation? && !row.NameRow? && i < |l.columns|
    ensures Col(l, i) < |RowText(l, row)| && RowText(l, row)[Col(l, i)] == Glyph(row, i)
  {
    GlyphInSegment(l, row, i, l.columns[i].gap + l.half);
    FullRowCell(l, row, i, l.columns[i].gap + l.half, Col(l, i), Glyph(row, i));
  }

  lemma MessageRowLifeline(l: Layout, row: Row, i: nat)
    requires BoxesFit(l) && row.Annotation? && HasRoom(l, row.link) && i < |l.columns| && |l.columns| >= 2
    ensures Col(l, i) < |RowText(l, row)| && RowText(l, row)[Col(l, i)] == Glyph(row, i)
  {
    GapIsInside(l, row.link);
    MessageRowFills(l, row);
    AnnotationCells(row, l.columns[i].gap, l.half, i);
    CellAtStart(l, Segments(l, row), l.half, i, |Segments(l, row)[i]| - 1, Col(l, i));
  }

  /** Every row shows the state of node i at the same place. */
  lemma LifelinesAlign(l: Layout, row: Row, i: nat)
    requires BoxesFit(l) && Sound(l, row) && i < |l.columns| && !row.NameRow?
    requires row.Annotation? ==> |l.columns| >= 2
    ensures Col(l, i) < |RowText(l, row)| && RowText(l, row)[Col(l, i)] == Glyph(row, i)
  {
    if row.Annotation? {
      MessageRowLifeline(l, row, i);
    } else {
      FullRowLifeline(l, row, i);
    }
  }

  lemma LinkRowsAreSound(l: Layout, link: Link, crashes: Struck, dead: set<int>, row: Row)
    requires HasRoom(l, link) && row in LinkRows(link, crashes, dead)
    ensures Sound(l, row) && !row.NameRow?
  {
  }

  lemma {:induction false} DrawnRowsAreSound(l: Layout, links: seq<Link>, crashes: Struck, k: nat, row: Row)
    requires AllHaveRoom(l, links) && k <= |links| && row in Rows(links, crashes, k)
    ensures Sound(l, row) && !row.NameRow?
  {
    if row in LinkRows(links[k - 1], crashes, Dead(links, crashes, k)) {
      LinkRowsAreSound(l, links[k - 1], crashes, Dead(links, crashes, k), row);
    } else {
      DrawnRowsAreSound(l, links, crashes, k - 1, row);
    }
  }

  predicate BoxEdge(row: Row) {
    row == TopOfBox(true) || row == BottomOfBox(true) || row == TopOfBox(false) || row == BottomOfBox(false)
  }

  predicate Drawn(arrows: seq<Arrow>, settings: Settings, row: Row) {
    row in Rows(LinksOf(arrows, settings), CrashIndices(Names(arrows, |arrows|), settings.crashes), |arrows|)
  }

  /** In the diagram of any arrows over two nodes or more, each row shows node i at the same place. */
  lemma DiagramIsAligned(arrows: seq<Arrow>, settings: Settings, l: Layout, row: Row, i: nat)
    requires l == LayoutOf(arrows, settings.markerSize) && i < |l.columns| && |l.columns| >= 2
    requires !row.NameRow?
    requires Drawn(arrows, settings, row) || BoxEdge(row)
    ensures Col(l, i) < |RowText(l, row)| && RowText(l, row)[Col(l, i)] == Glyph(row, i)
  {
    EveryLayoutFits(arrows, settings);
    if !BoxEdge(row) {
      DrawnRowsAreSound(l, LinksOf(arrows, settings), CrashIndices(Names(arrows, |arrows|), settings.crashes),
                        |arrows|, row);
    }
    LifelinesAlign(l, row, i);
  }

  // Shafts

  lemma {:induction false} Locate(l: Layout, n: nat, c: nat) returns (i: nat, o: nat)
    requires n <= |l.columns| && c < Start(l, n)
    ensures i < n && c == Start(l, i) + o && o < l.columns[i].gap + 2 * l.half + 1
  {
    if c < Start(l, n - 1) {
      i, o := Locate(l, n - 1, c);
    } else {
      i, o := n - 1, c - Start(l, n - 1);
    }
  }

  function Low(link: Link): nat {
    if link.goingRight then link.from else link.to
  }

  function High(link: Link): nat {
    if link.goingRight then link.to else link.from
  }

  lemma LeftOfLifeline(l: Layout, link: Link, i: nat, o: nat)
    requires LinkFits(link, |l.columns|) && link.from != link.to
    requires i < |l.columns| && o < l.columns[i].gap + l.half
    ensures Crosses(link, i) <==> Col(l, Low(link)) < Start(l, i) + o < Col(l, High(link))
  {
    var low, high := Low(link), High(link);
    if low < i { StartGrows(l, low, i); }
    if i < low { StartGrows(l, i, low); }
    if high < i { StartGrows(l, high, i); }
    if i < high { StartGrows(l, i, high); }
  }

  lemma RightOfLifeline(l: Layout, link: Link, i: nat, o: nat)
    requires LinkFits(link, |l.columns|) && link.from != link.to
    requires i < |l.columns| && l.columns[i].gap + l.half < o < l.columns[i].gap + 2 * l.half + 1
    ensures Leaves(link, i) <==> Col(l, Low(link)) < Start(l, i) + o < Col(l, High(link))
  {
    var low, high := Low(link), High(link);
    if low < i { StartGrows(l, low, i); }
    if i < low { StartGrows(l, i, low); }
    if high < i { StartGrows(l, high, i); }
    if i < high { StartGrows(l, i, high); }
  }

  lemma ShaftCell(l: Layout, row: Row, i: nat, o: nat, c: nat)
    requires BoxesFit(l) && row.Shaft? && i < |l.columns| && c == Start(l, i) + o
    requires o < l.columns[i].gap + 2 * l.half + 1 && o != l.columns[i].gap + l.half
    ensures c < |RowText(l, row)| && RowText(l, row)[c] == ShaftSegment(row, l.columns[i].gap, l.half, i)[o]
  {
    FullRowFills(l, row);
    CellAtStart(l, Segments(l, row), 0, i, o, c);
  }

  /**
   * Between lifelines a shaft is one unbroken line from its sender's lifeline to its receiver's,
   * with nothing left or right of it; at the lifelines themselves `LifelinesAlign` applies.
   */
  lemma ShaftIsOneLine(l: Layout, row: Row, c: nat)
    requires BoxesFit(l) && row.Shaft? && Sound(l, row)
    requires c < Start(l, |l.columns|) && forall i: nat | i < |l.columns| :: c != Col(l, i)
    ensures c < |RowText(l, row)|
    ensures
      RowText(l, row)[c]
      == if Col(l, Low(row.link)) < c < Col(l, High(row.link)) then Stroke(row.link.dropped) else ' '
  {
    var i, o := Locate(l, |l.columns|, c);
    assert c != Col(l, i);
    ShaftCells(row, l.columns[i].gap, l.half, i);
    ShaftCell(l, row, i, o, c);
    if o < l.columns[i].gap + l.half {
      LeftOfLifeline(l, row.link, i, o);
    } else {
      RightOfLifeline(l, row.link, i, o);
    }
  }

  // Messages and names

  lemma MessageCells(row: Row, gap: nat, half: nat, slack: nat)
    requires row.Annotation? && |row.link.message| <= 2 * half + gap
    requires slack == (2 * half + gap - |row.link.message|) / 2
    ensures
      var s := AnnotationSegment(row, gap, half, row.link.gap);
      slack + |row.link.message| < |s| && s[slack..slack + |row.link.message|] == row.link.message
  {
  }

  lemma MessageSlice(l: Layout, row: Row, slack: nat, p: int)
    requires BoxesFit(l) && row.Annotation? && HasRoom(l, row.link) && row.link.gap > 0
    requires slack == (2 * l.half + l.columns[row.link.gap].gap - |row.link.message|) / 2
    requires p == Start(l, row.link.gap) - l.half + slack
    ensures 0 <= p <= p + |row.link.message| <= |RowText(l, row)|
    ensures RowText(l, row)[p..p + |row.link.message|] == row.link.message
  {
    MessageRowFills(l, row);
    MessageCells(row, l.columns[row.link.gap].gap, l.half, slack);
    TextAtStart(l, Segments(l, row), l.half, row.link.gap, slack, row.link.message, p);
  }

  /** A message stands, centred, between the lifelines next to its gap. */
  lemma MessageBetweenLifelines(l: Layout, row: Row) returns (p: nat)
    requires BoxesFit(l) && row.Annotation? && HasRoom(l, row.link) && |l.columns| >= 2
    ensures row.link.gap > 0 && p + |row.link.message| <= |RowText(l, row)|
    ensures RowText(l, row)[p..p + |row.link.message|] == row.link.message
    ensures
      var left := p - (Col(l, row.link.gap - 1) + 1);
      var right := Col(l, row.link.gap) - (p + |row.link.message|);
      0 <= left <= right <= left + 1
  {
    var slack := (2 * l.half + l.columns[row.link.gap].gap - |row.link.message|) / 2;
    GapIsInside(l, row.link);
    MessageSlice(l, row, slack, Start(l, row.link.gap) - l.half + slack);
    p := Start(l, row.link.gap) - l.half + slack;
  }

  lemma NameCells(column: Column, half: nat, skip: nat)
    requires |column.name| + 3 <= 2 * half
    requires skip == column.gap + 2 + (2 * half - 3 - |column.name|) / 2
    ensures
      var s := NameSegment(column, half);
      skip + |column.name| <= |s| && s[skip..skip + |column.name|] == column.name
  {
  }

  lemma NameSlice(l: Layout, i: nat, name: string, skip: nat, p: nat)
    requires BoxesFit(l) && i < |l.columns| && skip + |name| <= |NameSegment(l.columns[i], l.half)|
    requires NameSegment(l.columns[i], l.half)[skip..skip + |name|] == name
    requires p == Start(l, i) + skip
    ensures p + |name| <= |RowText(l, NameRow)| && RowText(l, NameRow)[p..p + |name|] == name
  {
    FullRowFills(l, NameRow);
    TextAtStart(l, Segments(l, NameRow), 0, i, skip, name, p);
  }

  /** A name stands, centred, inside the box around its lifeline. */
  lemma NameInsideBox(l: Layout, i: nat) returns (p: nat)
    requires BoxesFit(l) && i < |l.columns|
    ensures p + |l.columns[i].name| <= |RowText(l, NameRow)|
    ensures RowText(l, NameRow)[p..p + |l.columns[i].name|] == l.columns[i].name
    ensures
      var left := p - (Col(l, i) - l.half);
      var right := Col(l, i) + l.half + 1 - (p + |l.columns[i].name|);
      2 <= left <= right <= left + 1
  {
    var skip := l.columns[i].gap + 2 + (2 * l.half - 3 - |l.columns[i].name|) / 2;
    p := Start(l, i) + skip;
    NameCells(l.columns[i], l.half, skip);
    NameSlice(l, i, l.columns[i].name, skip, p);
  }

  // Boxes, crashes and loops

  lemma BorderCorners(row: Row, gap: nat, half: nat)
    requires row.Border? && half >= 2
    ensures |BorderSegment(row, gap, half)| == gap + 2 * half + 1
    ensures BorderSegment(row, gap, half)[gap] == row.left
    ensures BorderSegment(row, gap, half)[gap + 2 * half] == row.right
  {
  }

  /** A box stands half a box to both sides of its lifeline. */
  lemma BoxAroundLifeline(l: Layout, row: Row, i: nat)
    requires BoxesFit(l) && row.Border? && i < |l.columns|
    ensures Col(l, i) + l.half < |RowText(l, row)|
    ensures RowText(l, row)[Col(l, i) - l.half] == row.left && RowText(l, row)[Col(l, i) + l.half] == row.right
  {
    var gap := l.columns[i].gap;
    BorderCorners(row, gap, l.half);
    FullRowCell(l, row, i, gap, Col(l, i) - l.half, row.left);
    FullRowCell(l, row, i, gap + 2 * l.half, Col(l, i) + l.half, row.right);
  }

  /** What a crash row shows around the lifeline of node i. */
  function CrashMark(row: Row, i: int): (mark: string)
    requires row.Crash?
    ensures |mark| == 5
  {
    if i in row.struck then Shape(row.part) else [' ', ' ', Lifeline(row.dead, i), ' ', ' ']
  }

  lemma CrashSlice(row: Row, gap: nat, half: nat, i: nat, skip: nat)
    requires row.Crash? && half >= 2 && skip == gap + half - 2
    ensures skip + 5 <= |CrashSegment(row, gap, half, i)|
    ensures CrashSegment(row, gap, half, i)[skip..skip + 5] == CrashMark(row, i)
  {
  }

  /** A crash box stands around the lifeline it ends, and no other lifeline is touched. */
  lemma CrashAroundLifeline(l: Layout, row: Row, i: nat, p: int)
    requires BoxesFit(l) && row.Crash? && i < |l.columns| && p == Col(l, i) - 2
    ensures 0 <= p <= p + |CrashMark(row, i)| <= |RowText(l, row)|
    ensures RowText(l, row)[p..p + |CrashMark(row, i)|] == CrashMark(row, i)
  {
    FullRowFills(l, row);
    CrashSlice(row, l.columns[i].gap, l.half, i, l.columns[i].gap + l.half - 2);
    TextAtStart(l, Segments(l, row), 0, i, l.columns[i].gap + l.half - 2, CrashMark(row, i), p);
  }

  /** The cell at which a loop turns. */
  function LoopTurn(row: Row): char
    requires row.LoopTop? || row.LoopBottom?
  {
    if row.link.goingRight then (if row.LoopTop? then '╮' else '╯') else (if row.LoopTop? then '╭' else '╰')
  }

  lemma LoopCorner(row: Row, gap: nat, half: nat, o: nat)
    requires (row.LoopTop? || row.LoopBottom?) && half >= 2
    requires o == if row.link.goingRight then gap + 2 * half else gap
    ensures
      var s := LoopSegment(row, gap, half, row.link.from);
      o < |s| && s[o] == LoopTurn(row)
  {
  }

  /** Both rows of a loop turn at the same cell, at the edge of the node's own box. */
  lemma LoopTurnsAtBoxEdge(l: Layout, row: Row, c: int)
    requires BoxesFit(l) && (row.LoopTop? || row.LoopBottom?) && Sound(l, row)
    requires c == if row.link.goingRight then Col(l, row.link.from) + l.half else Col(l, row.link.from) - l.half
    ensures 0 <= c < |RowText(l, row)| && RowText(l, row)[c] == LoopTurn(row)
  {
    var gap := l.columns[row.link.from].gap;
    var o := if row.link.goingRight then gap + 2 * l.half else gap;
    LoopCorner(row, gap, l.half, o);
    FullRowCell(l, row, row.link.from, o, c, LoopTurn(row));
  }

  // The marked line

  lemma {:induction false} RowsAreCounted(links: seq<Link>, crashes: Struck, k: nat)
    requires k <= |links| && !AnyMarked(links, k)
    ensures RowsAboveMark(links, crashes, k) == |Rows(links, crashes, k)|
  {
    if k > 0 {
      RowsAreCounted(links, crashes, k - 1);
    }
  }

  lemma {:induction false} CountStopsAtMark(links: seq<Link>, crashes: Struck, m: nat, k: nat)
    requires m < k <= |links| && links[m].marked && !AnyMarked(links, m)
    ensures AnyMarked(links, k) && RowsAboveMark(links, crashes, k) == |Rows(links, crashes, m)|
  {
    if k == m + 1 {
      RowsAreCounted(links, crashes, m);
    } else {
      CountStopsAtMark(links, crashes, m, k - 1);
    }
  }

  lemma {:induction false} RowsGrow(links: seq<Link>, crashes: Struck, m: nat, k: nat)
    requires m < k <= |links|
    ensures Rows(links, crashes, m + 1) <= Rows(links, crashes, k)
  {
    if m + 1 < k {
      RowsGrow(links, crashes, m, k - 1);
    }
  }

  lemma {:induction false} NoneMarked(links: seq<Link>, k: nat)
    requires k <= |links| && forall i | 0 <= i < k :: !links[i].marked
    ensures !AnyMarked(links, k)
  {
    if k > 0 {
      NoneMarked(links, k - 1);
    }
  }

  lemma LineOfMark(links: seq<Link>, crashes: Struck, m: int)
    requires forall i | 0 <= i < |links| :: links[i].marked <==> i == m
    ensures !(0 <= m < |links|) ==> RowsAboveMark(links, crashes, |links|) == |Rows(links, crashes, |links|)|
    ensures 0 <= m < |links| ==>
      && RowsAboveMark(links, crashes, |links|) == |Rows(links, crashes, m)|
      && Rows(links, crashes, m + 1) <= Rows(links, crashes, |links|)
  {
    if 0 <= m < |links| {
      NoneMarked(links, m);
      CountStopsAtMark(links, crashes, m, |links|);
      RowsGrow(links, crashes, m, |links|);
    } else {
      NoneMarked(links, |links|);
      RowsAreCounted(links, crashes, |links|);
    }
  }

  /** The reported line is that of the marked arrow's first row, or past the last row if none is marked. */
  lemma LineIsThatOfTheMark(arrows: seq<Arrow>, settings: Settings, links: seq<Link>, crashes: Struck, line: nat)
    requires links == LinksOf(arrows, settings)
    requires crashes == CrashIndices(Names(arrows, |arrows|), settings.crashes)
    requires line == DiagramOf(arrows, settings).line
    ensures !(0 <= settings.markAt < |links|) ==> line == |Rows(links, crashes, |links|)|
    ensures 0 <= settings.markAt < |links| ==>
      && line == |Rows(links, crashes, settings.markAt)|
      && Rows(links, crashes, settings.markAt + 1) <= Rows(links, crashes, |links|)
  {
    LineOfMark(links, crashes, settings.markAt);
  }
}

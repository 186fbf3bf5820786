/** What a sequence diagram is: its columns, its rows of visible cells, and the text they make. */
module SequenceLayout {
  import opened TextBuilder

  // A logical time.
  datatype Time = Time(step: int)

  type Crashes = map<Time, seq<string>>

  // Crashed nodes as column numbers.
  type Struck = map<Time, seq<int>>

  datatype Arrow = Arrow(from: string, to: string, at: Time, message: string, dropped: bool)

  datatype Settings = Settings(markerSize: nat, markAt: int, crashes: Crashes)

  // Nodes as column numbers; `message` already carries its markers, `gap` is the gap to annotate.
  datatype Link = Link(from: nat, to: nat, at: Time, message: string, dropped: bool,
                       goingRight: bool, gap: nat, marked: bool)

  datatype Column = Column(name: string, gap: nat)

  // A column is a gap followed by a box of 2 * half + 1 cells.
  datatype Layout = Layout(columns: seq<Column>, half: nat)

  datatype CrashPart = Top | Middle | Bottom

  datatype Row =
    | Border(left: char, middle: char, right: char)
    | NameRow
    | Crash(part: CrashPart, struck: seq<int>, dead: set<int>)
    | Annotation(link: Link, dead: set<int>)
    | LoopTop(link: Link, dead: set<int>)
    | LoopBottom(link: Link, dead: set<int>)
    | Shaft(link: Link, dead: set<int>)

  // Names and columns

  function IndexOf(names: seq<string>, name: string): (r: int)
    ensures -1 <= r < |names| && (r == -1 <==> name !in names)
    ensures r >= 0 ==> names[r] == name
  {
    if names == [] then -1
    else
      var last := |names| - 1;
      var before := IndexOf(names[..last], name);
      if before == -1 && names[last] == name then last else before
  }

  lemma {:induction false} IndexOfIsFirst(names: seq<string>, name: string, k: nat)
    requires k < |names| && names[k] == name && name !in names[..k]
    ensures IndexOf(names, name) == k
  {
    if k < |names| - 1 {
      assert names[..|names| - 1][..k] == names[..k];
      IndexOfIsFirst(names[..|names| - 1], name, k);
    }
  }

  ghost predicate Distinct(names: seq<string>) {
    names != [] ==> names[|names| - 1] !in names[..|names| - 1] && Distinct(names[..|names| - 1])
  }

  predicate Covers(names: seq<string>, arrows: seq<Arrow>) {
    forall i | 0 <= i < |arrows| :: arrows[i].from in names && arrows[i].to in names
  }

  function Known(names: seq<string>, name: string): seq<string> {
    if name in names then names else names + [name]
  }

  function WithNodes(names: seq<string>, arrow: Arrow): seq<string> {
    Known(Known(names, arrow.from), arrow.to)
  }

  /** The nodes of the first k arrows, in order of first appearance. */
  function Names(arrows: seq<Arrow>, k: nat): seq<string>
    requires k <= |arrows|
  {
    if k == 0 then [] else WithNodes(Names(arrows, k - 1), arrows[k - 1])
  }

  lemma WithNodesMembers(names: seq<string>, arrow: Arrow, x: string)
    ensures x in WithNodes(names, arrow) <==> x in names || x == arrow.from || x == arrow.to
  {
  }

  lemma KnownKeepsDistinct(names: seq<string>, name: string)
    requires Distinct(names)
    ensures Distinct(Known(names, name))
  {
    assert (names + [name])[..|names|] == names;
  }

  lemma {:induction false} NamesAreDistinct(arrows: seq<Arrow>, k: nat)
    requires k <= |arrows|
    ensures Distinct(Names(arrows, k))
  {
    if k > 0 {
      NamesAreDistinct(arrows, k - 1);
      KnownKeepsDistinct(Names(arrows, k - 1), arrows[k - 1].from);
      KnownKeepsDistinct(Known(Names(arrows, k - 1), arrows[k - 1].from), arrows[k - 1].to);
    }
  }

  lemma {:induction false} NamesHold(arrows: seq<Arrow>, k: nat, i: nat)
    requires i < k <= |arrows|
    ensures arrows[i].from in Names(arrows, k) && arrows[i].to in Names(arrows, k)
  {
    WithNodesMembers(Names(arrows, k - 1), arrows[k - 1], arrows[i].from);
    WithNodesMembers(Names(arrows, k - 1), arrows[k - 1], arrows[i].to);
    if i < k - 1 {
      NamesHold(arrows, k - 1, i);
    }
  }

  lemma NamesCover(arrows: seq<Arrow>)
    ensures Covers(Names(arrows, |arrows|), arrows)
  {
    forall i | 0 <= i < |arrows| {
      NamesHold(arrows, |arrows|, i);
    }
  }

  /** No column without a node, and by `NamesCover` no node without a column. */
  lemma {:induction false} NameIsNode(arrows: seq<Arrow>, k: nat, name: string) returns (i: nat)
    requires k <= |arrows| && name in Names(arrows, k)
    ensures i < k && (name == arrows[i].from || name == arrows[i].to)
  {
    WithNodesMembers(Names(arrows, k - 1), arrows[k - 1], name);
    if name in Names(arrows, k - 1) {
      i := NameIsNode(arrows, k - 1, name);
    } else {
      i := k - 1;
    }
  }

  /** The ends of the first k arrows, in order. */
  function EndsOf(arrows: seq<Arrow>, k: nat): seq<string>
    requires k <= |arrows|
  {
    if k == 0 then [] else EndsOf(arrows, k - 1) + [arrows[k - 1].from] + [arrows[k - 1].to]
  }

  ghost predicate AppearsFirst(ends: seq<string>, a: string, b: string) {
    exists p: nat :: p < |ends| && ends[p] == a && b !in ends[..p + 1]
  }

  ghost predicate InOrder(names: seq<string>, ends: seq<string>) {
    && (forall x :: x in names <==> x in ends)
    && forall i: nat, j: nat :: i < j < |names| ==> AppearsFirst(ends, names[i], names[j])
  }

  lemma AppearsFirstSnoc(ends: seq<string>, a: string, b: string, x: string)
    requires AppearsFirst(ends, a, b)
    ensures AppearsFirst(ends + [x], a, b)
  {
    var p: nat :| p < |ends| && ends[p] == a && b !in ends[..p + 1];
    assert (ends + [x])[..p + 1] == ends[..p + 1];
  }

  lemma NewAppearsLast(ends: seq<string>, a: string, x: string)
    requires a in ends && x !in ends
    ensures AppearsFirst(ends + [x], a, x)
  {
    var p: nat :| p < |ends| && ends[p] == a;
    assert (ends + [x])[..p + 1] == ends[..p + 1];
  }

  lemma {:induction false} KnownInOrder(names: seq<string>, ends: seq<string>, x: string)
    requires InOrder(names, ends)
    ensures InOrder(Known(names, x), ends + [x])
  {
    var known := Known(names, x);
    forall i: nat, j: nat | i < j < |known|
      ensures AppearsFirst(ends + [x], known[i], known[j])
    {
      if j < |names| {
        AppearsFirstSnoc(ends, names[i], names[j], x);
      } else {
        NewAppearsLast(ends, names[i], x);
      }
    }
  }

  /** Of two columns, the left one is that of the node that appears first. */
  lemma {:induction false} NamesInOrder(arrows: seq<Arrow>, k: nat)
    requires k <= |arrows|
    ensures InOrder(Names(arrows, k), EndsOf(arrows, k))
  {
    if k > 0 {
      NamesInOrder(arrows, k - 1);
      KnownInOrder(Names(arrows, k - 1), EndsOf(arrows, k - 1), arrows[k - 1].from);
      KnownInOrder(Known(Names(arrows, k - 1), arrows[k - 1].from), EndsOf(arrows, k - 1) + [arrows[k - 1].from],
                   arrows[k - 1].to);
    }
  }

  function BoxFor(name: string): nat {
    4 + |name| + (|name| + 1) % 2
  }

  function WidestBox(names: seq<string>, k: nat): nat
    requires k <= |names|
  {
    if k == 0 then 3
    else
      var size := WidestBox(names, k - 1);
      if size < BoxFor(names[k - 1]) then BoxFor(names[k - 1]) else size
  }

  function BoxSize(names: seq<string>): nat {
    WidestBox(names, |names|)
  }

  /** Odd, so there is a middle, and wide enough for a border and a blank on both sides of each name. */
  lemma {:induction false} WidestBoxFits(names: seq<string>, k: nat, i: nat)
    requires k <= |names|
    ensures WidestBox(names, k) % 2 == 1 && WidestBox(names, k) >= 3
    ensures i < k ==> WidestBox(names, k) >= |names[i]| + 4 && WidestBox(names, k) >= 5
  {
    if k > 0 {
      WidestBoxFits(names, k - 1, i);
    }
  }

  /** No box is wider than some name needs, rounded up to an odd size. */
  lemma {:induction false} WidestBoxIsNeeded(names: seq<string>, k: nat) returns (i: nat)
    requires 0 < k <= |names|
    ensures i < k && |names[i]| + 4 <= WidestBox(names, k) <= |names[i]| + 5
  {
    i := k - 1;
    if k > 1 && WidestBox(names, k) != BoxFor(names[k - 1]) {
      i := WidestBoxIsNeeded(names, k - 1);
    }
  }

  predicate LinkFits(link: Link, nodes: nat) {
    && link.from < nodes && link.to < nodes && link.gap < nodes
    && (link.from < link.to ==> link.goingRight && link.gap == link.from + 1)
    && (link.to < link.from ==> !link.goingRight && link.gap == link.from)
    && (link.from == link.to < nodes - 1 ==> link.goingRight && link.gap == link.from + 1)
    && (link.from == link.to == nodes - 1 ==> !link.goingRight && link.gap == link.from)
  }

  /** A loop at the last node turns left, where there is a gap. */
  predicate GoesRight(names: seq<string>, arrow: Arrow) {
    var from, to := IndexOf(names, arrow.from), IndexOf(names, arrow.to);
    from <= to && !(from == to == |names| - 1)
  }

  function GapOf(names: seq<string>, arrow: Arrow): nat
    requires arrow.from in names
  {
    IndexOf(names, arrow.from) + if GoesRight(names, arrow) then 1 else 0
  }

  function LinkOf(names: seq<string>, arrow: Arrow, markerSize: nat, marked: bool): (link: Link)
    requires arrow.from in names && arrow.to in names
    ensures LinkFits(link, |names|)
    ensures names[link.from] == arrow.from && names[link.to] == arrow.to
    ensures |link.message| == |arrow.message| + 2 * markerSize
  {
    var left := Cells(if marked then '>' else ' ', markerSize);
    var right := Cells(if marked then '<' else ' ', markerSize);
    Link(IndexOf(names, arrow.from), IndexOf(names, arrow.to), arrow.at,
         left + arrow.message + right, arrow.dropped,
         GoesRight(names, arrow), GapOf(names, arrow), marked)
  }

  /** The room the first k arrows ask for between lifelines g - 1 and g. */
  function Demand(names: seq<string>, arrows: seq<Arrow>, markerSize: nat, k: nat, g: nat): (room: nat)
    requires k <= |arrows| && Covers(names, arrows)
  {
    if k == 0 then 0
    else
      var room := Demand(names, arrows, markerSize, k - 1, g);
      var own := |arrows[k - 1].message| + 2 * markerSize;
      if GapOf(names, arrows[k - 1]) == g && room < own then own else room
  }

  /** The room beyond what two half boxes give. */
  function Gap(room: nat, boxSize: nat): nat {
    if room < boxSize - 1 then 0 else room - (boxSize - 1)
  }

  function LayoutOf(arrows: seq<Arrow>, markerSize: nat): Layout {
    var names := Names(arrows, |arrows|);
    NamesCover(arrows);
    var boxSize := BoxSize(names);
    Layout(seq(|names|, g requires 0 <= g < |names| =>
             Column(names[g], Gap(Demand(names, arrows, markerSize, |arrows|, g), boxSize))),
           boxSize / 2)
  }

  function LinksOf(arrows: seq<Arrow>, settings: Settings): (links: seq<Link>) {
    var names := Names(arrows, |arrows|);
    NamesCover(arrows);
    seq(|arrows|, i requires 0 <= i < |arrows| =>
      LinkOf(names, arrows[i], settings.markerSize, i == settings.markAt))
  }

  /** Crashed nodes as column numbers; a name without a column is -1. */
  function Indices(names: seq<string>, nodes: seq<string>): seq<int> {
    seq(|nodes|, i requires 0 <= i < |nodes| => IndexOf(names, nodes[i]))
  }

  function CrashIndices(names: seq<string>, crashes: Crashes): Struck {
    map at | at in crashes :: Indices(names, crashes[at])
  }

  // Rows as text

  function Shape(part: CrashPart): (shape: string)
    ensures |shape| == 5
  {
    match part
    case Top => "╭─┴─╮"
    case Middle => "│ ☠ │"
    case Bottom => "╰───╯"
  }

  function Lifeline(dead: set<int>, i: int): char {
    if i in dead then ' ' else '│'
  }

  function Stroke(dropped: bool): char {
    if dropped then '╌' else '─'
  }

  predicate Crosses(link: Link, i: int) {
    if link.goingRight then link.from < i <= link.to else link.to < i <= link.from
  }

  predicate Leaves(link: Link, i: int) {
    if link.goingRight then link.from <= i < link.to else link.to <= i < link.from
  }

  /** What a row shows at the lifeline of node i. */
  function Glyph(row: Row, i: int): char
    requires !row.NameRow?
  {
    match row
    case Border(left, middle, right) => middle
    case Crash(part, struck, dead) => if i in struck then Shape(part)[2] else Lifeline(dead, i)
    case Annotation(link, dead) => Lifeline(dead, i)
    case LoopTop(link, dead) =>
      if i in dead || i != link.from then Lifeline(dead, i) else if link.goingRight then '├' else '┤'
    case LoopBottom(link, dead) =>
      if i != link.from then Lifeline(dead, i) else if link.goingRight then '◀' else '▶'
    case Shaft(link, dead) =>
      if i == link.from then (if link.goingRight then '├' else '┤')
      else if i == link.to then (if link.goingRight then '▶' else '◀')
      else if Crosses(link, i) then '┼'
      else Lifeline(dead, i)
  }

  function Framed(pad: char, gap: int, left: string, middle: char, right: string): string {
    Cells(pad, gap) + left + [middle] + right
  }

  function BorderSegment(row: Row, gap: int, half: int): string
    requires row.Border?
  {
    Cells(' ', gap) + [row.left] + Cells('─', half - 1) + [row.middle] + Cells('─', half - 1) + [row.right]
  }

  function NameSegment(column: Column, half: int): string {
    var room := 2 * half - 3 - |column.name|;
    Cells(' ', column.gap) + "│ " + Cells(' ', room / 2) + column.name + Cells(' ', room - room / 2) + " │"
  }

  function CrashSegment(row: Row, gap: int, half: int, i: int): string
    requires row.Crash?
  {
    var middle := if i in row.struck then Shape(row.part) else if i in row.dead then "     " else "  │  ";
    Cells(' ', half - 2 + gap) + middle + Cells(' ', half - 2)
  }

  function AnnotationSegment(row: Row, gap: int, half: int, i: int): string
    requires row.Annotation?
  {
    if i == row.link.gap then
      var room := 2 * half + gap - |row.link.message|;
      Cells(' ', room / 2) + row.link.message + Cells(' ', room - room / 2) + [Glyph(row, i)]
    else
      Cells(' ', half + gap + (if i != 0 then half else 0)) + [Glyph(row, i)]
  }

  function LoopSegment(row: Row, gap: int, half: int, i: int): string
    requires row.LoopTop? || row.LoopBottom?
  {
    var here := i == row.link.from;
    var turnLeft := if row.LoopTop? then '╭' else '╰';
    var turnRight := if row.LoopTop? then '╮' else '╯';
    Framed(' ', gap,
           if here && !row.link.goingRight then [turnLeft] + Cells('─', half - 1) else Cells(' ', half),
           Glyph(row, i),
           if here && row.link.goingRight then Cells('─', half - 1) + [turnRight] else Cells(' ', half))
  }

  function ShaftSegment(row: Row, gap: int, half: int, i: int): string
    requires row.Shaft?
  {
    var stroke := Stroke(row.link.dropped);
    Framed(if Crosses(row.link, i) then stroke else ' ', gap,
           Cells(if Crosses(row.link, i) then stroke else ' ', half),
           Glyph(row, i),
           Cells(if Leaves(row.link, i) then stroke else ' ', half))
  }

  function Segment(l: Layout, row: Row, i: nat): string
    requires i < |l.columns|
  {
    var gap := l.columns[i].gap;
    match row
    case Border(left, middle, right) => BorderSegment(row, gap, l.half)
    case NameRow => NameSegment(l.columns[i], l.half)
    case Crash(part, struck, dead) => CrashSegment(row, gap, l.half, i)
    case Annotation(link, dead) => AnnotationSegment(row, gap, l.half, i)
    case LoopTop(link, dead) => LoopSegment(row, gap, l.half, i)
    case LoopBottom(link, dead) => LoopSegment(row, gap, l.half, i)
    case Shaft(link, dead) => ShaftSegment(row, gap, l.half, i)
  }

  /** A row, column by column. */
  function Segments(l: Layout, row: Row): (parts: seq<string>)
    ensures |parts| == |l.columns|
  {
    seq(|l.columns|, i requires 0 <= i < |l.columns| => Segment(l, row, i))
  }

  function RowText(l: Layout, row: Row): string {
    Concat(Segments(l, row), |l.columns|)
  }

  function Line(l: Layout, row: Row): string {
    RowText(l, row) + "\n"
  }

  function Text(l: Layout, rows: seq<Row>): string {
    if rows == [] then "" else Text(l, rows[..|rows| - 1]) + Line(l, rows[|rows| - 1])
  }

  lemma TextSnoc(l: Layout, rows: seq<Row>, row: Row)
    ensures Text(l, rows + [row]) == Text(l, rows) + Line(l, row)
  {
    assert (rows + [row])[..|rows|] == rows;
  }

  lemma TextOfOne(l: Layout, a: Row)
    ensures Text(l, [a]) == Line(l, a)
  {
  }

  lemma TextOfTwo(l: Layout, a: Row, b: Row)
    ensures Text(l, [a, b]) == Line(l, a) + Line(l, b)
  {
    assert [a] + [b] == [a, b];
    TextSnoc(l, [a], b);
    TextOfOne(l, a);
  }

  lemma TextOfThree(l: Layout, a: Row, b: Row, c: Row)
    ensures Text(l, [a, b, c]) == Line(l, a) + Line(l, b) + Line(l, c)
  {
    assert [a, b] + [c] == [a, b, c];
    TextSnoc(l, [a, b], c);
    TextOfTwo(l, a, b);
  }

  lemma {:induction false} TextAppend(l: Layout, a: seq<Row>, b: seq<Row>)
    ensures Text(l, a + b) == Text(l, a) + Text(l, b)
  {
    if b == [] {
      assert a + b == a;
    } else {
      var init, row := b[..|b| - 1], b[|b| - 1];
      assert b == init + [row];
      assert a + b == a + init + [row];
      TextSnoc(l, a + init, row);
      TextAppend(l, a, init);
      Regroup(Text(l, a), Text(l, init), Line(l, row));
    }
  }

  // Diagrams as rows

  function TopOfBox(isTop: bool): Row {
    Border('╭', if isTop then '─' else '┴', '╮')
  }

  function BottomOfBox(isTop: bool): Row {
    Border('╰', if isTop then '┬' else '─', '╯')
  }

  /** No newline after the last row. */
  function Boxes(l: Layout, isTop: bool): string {
    Line(l, TopOfBox(isTop)) + Line(l, NameRow) + RowText(l, BottomOfBox(isTop))
  }

  function CrashRows(struck: seq<int>, dead: set<int>): seq<Row> {
    [Crash(Top, struck, dead), Crash(Middle, struck, dead), Crash(Bottom, struck, dead)]
  }

  function CrashRowsAt(at: Time, crashes: Struck, dead: set<int>): seq<Row> {
    if at in crashes then CrashRows(crashes[at], dead) else []
  }

  function ShaftRows(link: Link, dead: set<int>): seq<Row> {
    if link.from == link.to then [LoopTop(link, dead), LoopBottom(link, dead)] else [Shaft(link, dead)]
  }

  /** An arrow is three rows for the crashes at its time, its message, and its shaft or loop. */
  function LinkRows(link: Link, crashes: Struck, dead: set<int>): seq<Row> {
    CrashRowsAt(link.at, crashes, dead) + [Annotation(link, dead)] + ShaftRows(link, dead)
  }

  function RowCount(link: Link, crashes: Struck): nat {
    (if link.at in crashes then 3 else 0) + 1 + (if link.from == link.to then 2 else 1)
  }

  function ToSet(s: seq<int>): set<int> {
    set i | 0 <= i < |s| :: s[i]
  }

  function StruckAt(at: Time, crashes: Struck): set<int> {
    if at in crashes then ToSet(crashes[at]) else {}
  }

  /** The nodes that crashed at the times of the first k arrows. */
  function Dead(links: seq<Link>, crashes: Struck, k: nat): set<int>
    requires k <= |links|
  {
    if k == 0 then {} else Dead(links, crashes, k - 1) + StruckAt(links[k - 1].at, crashes)
  }

  function Rows(links: seq<Link>, crashes: Struck, k: nat): seq<Row>
    requires k <= |links|
  {
    if k == 0 then []
    else Rows(links, crashes, k - 1) + LinkRows(links[k - 1], crashes, Dead(links, crashes, k))
  }

  predicate AnyMarked(links: seq<Link>, k: nat)
    requires k <= |links|
  {
    k > 0 && (links[k - 1].marked || AnyMarked(links, k - 1))
  }

  /** The number of rows above the first marked arrow's, or of all rows. */
  function RowsAboveMark(links: seq<Link>, crashes: Struck, k: nat): nat
    requires k <= |links|
  {
    if k == 0 then 0
    else
      RowsAboveMark(links, crashes, k - 1)
      + if AnyMarked(links, k) then 0 else RowCount(links[k - 1], crashes)
  }

  datatype Diagram = Diagram(text: string, line: nat)

  function HeaderOf(arrows: seq<Arrow>, markerSize: nat): string {
    Boxes(LayoutOf(arrows, markerSize), true)
  }

  function DiagramOf(arrows: seq<Arrow>, settings: Settings): Diagram {
    var l := LayoutOf(arrows, settings.markerSize);
    var links := LinksOf(arrows, settings);
    var crashes := CrashIndices(Names(arrows, |arrows|), settings.crashes);
    Diagram(Text(l, Rows(links, crashes, |links|)) + Boxes(l, false), RowsAboveMark(links, crashes, |links|))
  }

  // Every layout fits

  /** Each box has room for its name, its border and a lifeline in the middle. */
  predicate BoxesFit(l: Layout) {
    && (|l.columns| > 0 ==> l.half >= 2)
    && forall i | 0 <= i < |l.columns| :: |l.columns[i].name| + 3 <= 2 * l.half
  }

  predicate HasRoom(l: Layout, link: Link) {
    LinkFits(link, |l.columns|) && |link.message| <= 2 * l.half + l.columns[link.gap].gap
  }

  predicate AllHaveRoom(l: Layout, links: seq<Link>) {
    BoxesFit(l) && forall i | 0 <= i < |links| :: HasRoom(l, links[i])
  }

  lemma {:induction false} DemandCovers(names: seq<string>, arrows: seq<Arrow>, markerSize: nat, k: nat, g: nat, j: nat)
    requires j < k <= |arrows| && Covers(names, arrows) && GapOf(names, arrows[j]) == g
    ensures |arrows[j].message| + 2 * markerSize <= Demand(names, arrows, markerSize, k, g)
  {
    if j < k - 1 {
      DemandCovers(names, arrows, markerSize, k - 1, g, j);
    }
  }

  lemma LayoutFits(arrows: seq<Arrow>, markerSize: nat)
    ensures BoxesFit(LayoutOf(arrows, markerSize))
  {
    var names := Names(arrows, |arrows|);
    forall i: nat | i < |names|
      ensures |names[i]| + 3 <= 2 * (BoxSize(names) / 2) && BoxSize(names) / 2 >= 2
    {
      WidestBoxFits(names, |names|, i);
    }
  }

  lemma EveryLinkHasRoom(arrows: seq<Arrow>, settings: Settings, i: nat)
    requires i < |arrows|
    ensures HasRoom(LayoutOf(arrows, settings.markerSize), LinksOf(arrows, settings)[i])
  {
    NamesCover(arrows);
    WidestBoxFits(Names(arrows, |arrows|), |Names(arrows, |arrows|)|, 0);
    var names := Names(arrows, |arrows|);
    DemandCovers(names, arrows, settings.markerSize, |arrows|, GapOf(names, arrows[i]), i);
  }

  /** Nothing is drawn with a negative repeat count, nor in a gap that is not there. */
  lemma EveryLayoutFits(arrows: seq<Arrow>, settings: Settings)
    ensures AllHaveRoom(LayoutOf(arrows, settings.markerSize), LinksOf(arrows, settings))
  {
    LayoutFits(arrows, settings.markerSize);
    forall i | 0 <= i < |arrows| {
      EveryLinkHasRoom(arrows, settings, i);
    }
  }

  lemma {:induction false} DemandIsMet(names: seq<string>, arrows: seq<Arrow>, markerSize: nat, k: nat, g: nat)
    returns (j: nat)
    requires k <= |arrows| && Covers(names, arrows)
    requires Demand(names, arrows, markerSize, k, g) > 0
    ensures j < k && GapOf(names, arrows[j]) == g
    ensures |arrows[j].message| + 2 * markerSize == Demand(names, arrows, markerSize, k, g)
  {
    if Demand(names, arrows, markerSize, k, g) == Demand(names, arrows, markerSize, k - 1, g) {
      j := DemandIsMet(names, arrows, markerSize, k - 1, g);
    } else {
      j := k - 1;
    }
  }

  /** A gap is never wider than one of its messages needs. */
  lemma GapsAreTight(arrows: seq<Arrow>, settings: Settings, g: nat) returns (link: Link)
    requires g < |LayoutOf(arrows, settings.markerSize).columns|
    requires LayoutOf(arrows, settings.markerSize).columns[g].gap > 0
    ensures link in LinksOf(arrows, settings) && link.gap == g
    ensures
      var l := LayoutOf(arrows, settings.markerSize);
      |link.message| == 2 * l.half + l.columns[g].gap
  {
    NamesCover(arrows);
    WidestBoxFits(Names(arrows, |arrows|), |Names(arrows, |arrows|)|, 0);
    var j := DemandIsMet(Names(arrows, |arrows|), arrows, settings.markerSize, |arrows|, g);
    link := LinksOf(arrows, settings)[j];
  }
}

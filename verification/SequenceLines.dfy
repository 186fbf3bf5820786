/** The reported line, counted in newlines of the drawn text. */
module SequenceLines {
  import opened TextBuilder
  import opened SequenceLayout
  import opened SequenceAlignment
  import Framing

  predicate OneLine(s: string) {
    '\n' !in s
  }

  predicate NamesAreOneLine(l: Layout) {
    forall i | 0 <= i < |l.columns| :: OneLine(l.columns[i].name)
  }

  predicate RowIsOneLine(row: Row) {
    match row
    case Border(left, middle, right) => left != '\n' && middle != '\n' && right != '\n'
    case Annotation(link, dead) => OneLine(link.message)
    case other => true
  }

  lemma BorderIsOneLine(row: Row, gap: nat, half: nat)
    requires row.Border? && RowIsOneLine(row)
    ensures OneLine(BorderSegment(row, gap, half))
  {
  }

  lemma NameIsOneLine(column: Column, half: nat)
    requires OneLine(column.name)
    ensures OneLine(NameSegment(column, half))
  {
  }

  lemma CrashIsOneLine(row: Row, gap: nat, half: nat, i: nat)
    requires row.Crash?
    ensures OneLine(CrashSegment(row, gap, half, i))
  {
    assert OneLine(Shape(row.part));
  }

  lemma AnnotationIsOneLine(row: Row, gap: nat, half: nat, i: nat)
    requires row.Annotation? && RowIsOneLine(row)
    ensures OneLine(AnnotationSegment(row, gap, half, i))
  {
  }

  lemma FramedIsOneLine(pad: char, gap: nat, left: string, middle: char, right: string)
    requires pad != '\n' && middle != '\n' && OneLine(left) && OneLine(right)
    ensures OneLine(Framed(pad, gap, left, middle, right))
  {
  }

  lemma LoopIsOneLine(row: Row, gap: nat, half: nat, i: nat)
    requires row.LoopTop? || row.LoopBottom?
    ensures OneLine(LoopSegment(row, gap, half, i))
  {
    var here := i == row.link.from;
    var turnLeft := if row.LoopTop? then '╭' else '╰';
    var turnRight := if row.LoopTop? then '╮' else '╯';
    FramedIsOneLine(' ', gap,
                    if here && !row.link.goingRight then [turnLeft] + Cells('─', half - 1) else Cells(' ', half),
                    Glyph(row, i),
                    if here && row.link.goingRight then Cells('─', half - 1) + [turnRight] else Cells(' ', half));
  }

  lemma ShaftIsOneRow(row: Row, gap: nat, half: nat, i: nat)
    requires row.Shaft?
    ensures OneLine(ShaftSegment(row, gap, half, i))
  {
    var stroke := Stroke(row.link.dropped);
    FramedIsOneLine(if Crosses(row.link, i) then stroke else ' ', gap,
                    Cells(if Crosses(row.link, i) then stroke else ' ', half), Glyph(row, i),
                    Cells(if Leaves(row.link, i) then stroke else ' ', half));
  }

  lemma SegmentIsOneLine(l: Layout, row: Row, i: nat)
    requires i < |l.columns| && NamesAreOneLine(l) && RowIsOneLine(row)
    ensures OneLine(Segment(l, row, i))
  {
    var gap := l.columns[i].gap;
    match row
    case Border(left, middle, right) => BorderIsOneLine(row, gap, l.half);
    case NameRow => NameIsOneLine(l.columns[i], l.half);
    case Crash(part, struck, dead) => CrashIsOneLine(row, gap, l.half, i);
    case Annotation(link, dead) => AnnotationIsOneLine(row, gap, l.half, i);
    case LoopTop(link, dead) => LoopIsOneLine(row, gap, l.half, i);
    case LoopBottom(link, dead) => LoopIsOneLine(row, gap, l.half, i);
    case Shaft(link, dead) => ShaftIsOneRow(row, gap, l.half, i);
  }

  lemma {:induction false} PartsAreOneLine(parts: seq<string>, n: nat)
    requires n <= |parts| && forall i | 0 <= i < |parts| :: OneLine(parts[i])
    ensures OneLine(Concat(parts, n))
  {
    if n > 0 {
      PartsAreOneLine(parts, n - 1);
    }
  }

  lemma LineHasOneNewline(l: Layout, row: Row)
    requires NamesAreOneLine(l) && RowIsOneLine(row)
    ensures Framing.Newlines(Line(l, row)) == 1
  {
    forall i: nat | i < |l.columns|
      ensures OneLine(Segments(l, row)[i])
    {
      SegmentIsOneLine(l, row, i);
    }
    PartsAreOneLine(Segments(l, row), |l.columns|);
    Framing.NewlineFree(RowText(l, row));
    Framing.NewlinesAppend(RowText(l, row), "\n");
    assert Framing.Newlines("\n") == 1;
  }

  lemma {:induction false} TextHasItsLines(l: Layout, rows: seq<Row>)
    requires NamesAreOneLine(l) && forall row | row in rows :: RowIsOneLine(row)
    ensures Framing.Newlines(Text(l, rows)) == |rows|
  {
    if rows != [] {
      var init, row := rows[..|rows| - 1], rows[|rows| - 1];
      TextHasItsLines(l, init);
      LineHasOneNewline(l, row);
      Framing.NewlinesAppend(Text(l, init), Line(l, row));
    }
  }

  lemma {:induction false} DrawnRowsAreOneLine(links: seq<Link>, crashes: Struck, k: nat, row: Row)
    requires k <= |links| && row in Rows(links, crashes, k)
    requires forall i | 0 <= i < |links| :: OneLine(links[i].message)
    ensures RowIsOneLine(row)
  {
    if row in Rows(links, crashes, k - 1) {
      DrawnRowsAreOneLine(links, crashes, k - 1, row);
    }
  }

  predicate ArrowIsOneLine(arrow: Arrow) {
    OneLine(arrow.from) && OneLine(arrow.to) && OneLine(arrow.message)
  }

  lemma LayoutIsOneLine(arrows: seq<Arrow>, markerSize: nat)
    requires forall i | 0 <= i < |arrows| :: ArrowIsOneLine(arrows[i])
    ensures NamesAreOneLine(LayoutOf(arrows, markerSize))
  {
    var names := Names(arrows, |arrows|);
    forall c | 0 <= c < |names|
      ensures OneLine(names[c])
    {
      var i := NameIsNode(arrows, |arrows|, names[c]);
      assert ArrowIsOneLine(arrows[i]);
    }
  }

  lemma LinksAreOneLine(arrows: seq<Arrow>, settings: Settings)
    requires forall i | 0 <= i < |arrows| :: ArrowIsOneLine(arrows[i])
    ensures forall i | 0 <= i < |arrows| :: OneLine(LinksOf(arrows, settings)[i].message)
  {
    NamesCover(arrows);
    forall i | 0 <= i < |arrows|
      ensures OneLine(LinksOf(arrows, settings)[i].message)
    {
      assert ArrowIsOneLine(arrows[i]);
    }
  }

  lemma TextSplits(l: Layout, links: seq<Link>, crashes: Struck, m: nat, marked: string) returns (below: string)
    requires m < |links| && Rows(links, crashes, m + 1) <= Rows(links, crashes, |links|)
    requires marked == Text(l, LinkRows(links[m], crashes, Dead(links, crashes, m + 1)))
    ensures Text(l, Rows(links, crashes, |links|)) == Text(l, Rows(links, crashes, m)) + marked + below
  {
    var rest := Rows(links, crashes, |links|)[|Rows(links, crashes, m + 1)|..];
    assert Rows(links, crashes, |links|) == Rows(links, crashes, m + 1) + rest;
    TextAppend(l, Rows(links, crashes, m + 1), rest);
    TextAppend(l, Rows(links, crashes, m), LinkRows(links[m], crashes, Dead(links, crashes, m + 1)));
    below := Text(l, rest);
  }

  lemma RowsAboveAreLines(l: Layout, links: seq<Link>, crashes: Struck, m: nat)
    requires m <= |links| && NamesAreOneLine(l) && forall i | 0 <= i < |links| :: OneLine(links[i].message)
    ensures Framing.Newlines(Text(l, Rows(links, crashes, m))) == |Rows(links, crashes, m)|
  {
    forall row | row in Rows(links, crashes, m)
      ensures RowIsOneLine(row)
    {
      DrawnRowsAreOneLine(links, crashes, m, row);
    }
    TextHasItsLines(l, Rows(links, crashes, m));
  }

  lemma MarkInText(l: Layout, links: seq<Link>, crashes: Struck, m: nat, marked: string, foot: string)
    returns (above: string, below: string)
    requires m < |links| && forall i | 0 <= i < |links| :: links[i].marked <==> i == m
    requires NamesAreOneLine(l) && forall i | 0 <= i < |links| :: OneLine(links[i].message)
    requires marked == Text(l, LinkRows(links[m], crashes, Dead(links, crashes, m + 1)))
    ensures Text(l, Rows(links, crashes, |links|)) + foot == above + marked + below
    ensures Framing.Newlines(above) == RowsAboveMark(links, crashes, |links|)
  {
    LineOfMark(links, crashes, m);
    RowsAboveAreLines(l, links, crashes, m);
    above := Text(l, Rows(links, crashes, m));
    below := TextSplits(l, links, crashes, m, marked);
    Regroup(above + marked, below, foot);
    below := below + foot;
  }

  /**
   * If no name and no message contains a newline, the marked arrow's rows begin right after as many newlines
   * of the drawn text as `line` says.
   */
  lemma LineCountsNewlines(arrows: seq<Arrow>, settings: Settings, l: Layout, links: seq<Link>, crashes: Struck,
                           drawn: Diagram, marked: string)
    returns (above: string, below: string)
    requires forall i | 0 <= i < |arrows| :: ArrowIsOneLine(arrows[i])
    requires l == LayoutOf(arrows, settings.markerSize) && links == LinksOf(arrows, settings)
    requires crashes == CrashIndices(Names(arrows, |arrows|), settings.crashes) && 0 <= settings.markAt < |links|
    requires drawn == DiagramOf(arrows, settings)
    requires marked == Text(l, LinkRows(links[settings.markAt], crashes, Dead(links, crashes, settings.markAt + 1)))
    ensures drawn.text == above + marked + below && Framing.Newlines(above) == drawn.line
  {
    LayoutIsOneLine(arrows, settings.markerSize);
    LinksAreOneLine(arrows, settings);
    above, below := MarkInText(l, links, crashes, settings.markAt, marked, Boxes(l, false));
  }
}

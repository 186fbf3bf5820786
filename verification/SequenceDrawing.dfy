/** The loops that write a sequence diagram, proved to write the rows of its layout. */
module SequenceDrawing {
  import opened TextBuilder
  import opened SequenceLayout

  method WriteCells(output: Builder, c: char, count: int)
    requires count >= 0
    modifies output
    ensures output.contents == old(output.contents) + Cells(c, count)
  {
    RepeatCell(c, count);
    output.WriteRepeat([c], count);
  }

  // Boxes

  method WriteBorderSegment(output: Builder, row: Row, gap: nat, half: nat, halfPoint: int)
    requires row.Border? && 0 <= halfPoint == half - 1
    modifies output
    ensures output.contents == old(output.contents) + BorderSegment(row, gap, half)
  {
    WriteCells(output, ' ', gap);
    output.WriteString([row.left]);
    WriteCells(output, '─', halfPoint);
    output.WriteString([row.middle]);
    WriteCells(output, '─', halfPoint);
    output.WriteString([row.right]);
    Regroup6(old(output.contents), Cells(' ', gap), [row.left], Cells('─', halfPoint), [row.middle],
             Cells('─', halfPoint), [row.right]);
  }

  method WriteBorder(output: Builder, l: Layout, row: Row, halfPoint: int)
    requires BoxesFit(l) && row.Border? && halfPoint == l.half - 1
    modifies output
    ensures output.contents == old(output.contents) + RowText(l, row)
  {
    ghost var parts := Segments(l, row);
    for i := 0 to |l.columns|
      invariant output.contents == old(output.contents) + Concat(parts, i)
    {
      WriteBorderSegment(output, row, l.columns[i].gap, l.half, halfPoint);
      NextPart(old(output.contents), parts, i);
    }
  }

  method WriteNameSegment(output: Builder, column: Column, half: nat, boxSize: nat)
    requires |column.name| + 3 <= 2 * half && boxSize == 2 * half + 1
    modifies output
    ensures output.contents == old(output.contents) + NameSegment(column, half)
  {
    var totalSpace := boxSize - 4 - |column.name|;
    var slack := totalSpace / 2;
    var remaining := totalSpace - slack;
    WriteCells(output, ' ', column.gap);
    output.WriteString("│ ");
    WriteCells(output, ' ', slack);
    output.WriteString(column.name);
    WriteCells(output, ' ', remaining);
    output.WriteString(" │");
    Regroup6(old(output.contents), Cells(' ', column.gap), "│ ", Cells(' ', slack), column.name,
             Cells(' ', remaining), " │");
  }

  method WriteNames(output: Builder, l: Layout, boxSize: nat)
    requires BoxesFit(l) && boxSize == 2 * l.half + 1
    modifies output
    ensures output.contents == old(output.contents) + Line(l, NameRow)
  {
    ghost var parts := Segments(l, NameRow);
    for i := 0 to |l.columns|
      invariant output.contents == old(output.contents) + Concat(parts, i)
    {
      WriteNameSegment(output, l.columns[i], l.half, boxSize);
      NextPart(old(output.contents), parts, i);
    }
    output.WriteString("\n");
    Regroup(old(output.contents), RowText(l, NameRow), "\n");
  }

  method AppendBoxes(isTop: bool, output: Builder, l: Layout, boxSize: nat)
    requires BoxesFit(l) && boxSize == 2 * l.half + 1
    modifies output
    ensures output.contents == old(output.contents) + Boxes(l, isTop)
  {
    var halfPoint := (boxSize - 2) / 2;
    var middle := '┴';
    if isTop {
      middle := '─';
    }
    WriteBorder(output, l, Border('╭', middle, '╮'), halfPoint);
    output.WriteString("\n");
    Regroup(old(output.contents), RowText(l, TopOfBox(isTop)), "\n");
    WriteNames(output, l, boxSize);
    if isTop {
      middle := '┬';
    } else {
      middle := '─';
    }
    WriteBorder(output, l, Border('╰', middle, '╯'), halfPoint);
    Regroup3(old(output.contents), Line(l, TopOfBox(isTop)), Line(l, NameRow), RowText(l, BottomOfBox(isTop)));
  }

  // Arrows

  method WriteCrashSegment(output: Builder, row: Row, gap: nat, half: nat, i: nat)
    requires row.Crash? && half >= 2
    modifies output
    ensures output.contents == old(output.contents) + CrashSegment(row, gap, half, i)
  {
    var middle := "  │  ";
    var newCrash := false;
    for j := 0 to |row.struck|
      invariant newCrash <==> i in row.struck[..j]
    {
      if row.struck[j] == i {
        newCrash := true;
      }
    }
    if newCrash {
      middle := Shape(row.part);
    } else if i in row.dead {
      middle := "     ";
    }
    WriteCells(output, ' ', half - 2 + gap);
    output.WriteString(middle);
    WriteCells(output, ' ', half - 2);
    Regroup3(old(output.contents), Cells(' ', half - 2 + gap), middle, Cells(' ', half - 2));
  }

  method WriteCrash(output: Builder, l: Layout, row: Row)
    requires BoxesFit(l) && row.Crash?
    modifies output
    ensures output.contents == old(output.contents) + Line(l, row)
  {
    ghost var parts := Segments(l, row);
    for i := 0 to |l.columns|
      invariant output.contents == old(output.contents) + Concat(parts, i)
    {
      WriteCrashSegment(output, row, l.columns[i].gap, l.half, i);
      NextPart(old(output.contents), parts, i);
    }
    output.WriteString("\n");
    Regroup(old(output.contents), RowText(l, row), "\n");
  }

  method WriteAnnotationSegment(output: Builder, row: Row, gap: nat, half: nat, i: nat)
    requires row.Annotation? && (i == row.link.gap ==> |row.link.message| <= 2 * half + gap)
    modifies output
    ensures output.contents == old(output.contents) + AnnotationSegment(row, gap, half, i)
  {
    var end := "│";
    if i in row.dead {
      end := " ";
    }
    if i == row.link.gap {
      var totalSpace := 2 * half + gap - |row.link.message|;
      var slack := totalSpace / 2;
      WriteCells(output, ' ', slack);
      output.WriteString(row.link.message);
      WriteCells(output, ' ', totalSpace - slack);
      output.WriteString(end);
      Regroup4(old(output.contents), Cells(' ', slack), row.link.message, Cells(' ', totalSpace - slack), end);
    } else {
      var space := half + gap;
      if i != 0 {
        space := space + half;
      }
      WriteCells(output, ' ', space);
      output.WriteString(end);
      Regroup(old(output.contents), Cells(' ', space), end);
    }
  }

  method WriteAnnotation(output: Builder, l: Layout, row: Row)
    requires BoxesFit(l) && row.Annotation? && HasRoom(l, row.link)
    modifies output
    ensures output.contents == old(output.contents) + Line(l, row)
  {
    ghost var parts := Segments(l, row);
    for i := 0 to |l.columns|
      invariant output.contents == old(output.contents) + Concat(parts, i)
    {
      WriteAnnotationSegment(output, row, l.columns[i].gap, l.half, i);
      NextPart(old(output.contents), parts, i);
    }
    output.WriteString("\n");
    Regroup(old(output.contents), RowText(l, row), "\n");
  }

  method WriteLoopTopSegment(output: Builder, row: Row, gap: nat, half: nat, i: nat)
    requires row.LoopTop? && half >= 2
    modifies output
    ensures output.contents == old(output.contents) + LoopSegment(row, gap, half, i)
  {
    var leftPart, middle, rightPart := Cells(' ', half), "│", Cells(' ', half);
    WriteCells(output, ' ', gap);
    if i == row.link.from {
      if row.link.goingRight {
        middle := "├";
        rightPart := Cells('─', half - 1) + "╮";
      } else {
        middle := "┤";
        leftPart := "╭" + Cells('─', half - 1);
      }
    }
    if i in row.dead {
      middle := " ";
    }
    output.WriteString(leftPart);
    output.WriteString(middle);
    output.WriteString(rightPart);
    Regroup4(old(output.contents), Cells(' ', gap), leftPart, middle, rightPart);
  }

  method WriteLoopBottomSegment(output: Builder, row: Row, gap: nat, half: nat, i: nat)
    requires row.LoopBottom? && half >= 2
    modifies output
    ensures output.contents == old(output.contents) + LoopSegment(row, gap, half, i)
  {
    WriteCells(output, ' ', gap);
    var leftPart, middle, rightPart := Cells(' ', half), "│", Cells(' ', half);
    if i in row.dead {
      middle := " ";
    }
    if i == row.link.from {
      if row.link.goingRight {
        middle := "◀";
        rightPart := Cells('─', half - 1) + "╯";
      } else {
        middle := "▶";
        leftPart := "╰" + Cells('─', half - 1);
      }
    }
    output.WriteString(leftPart);
    output.WriteString(middle);
    output.WriteString(rightPart);
    Regroup4(old(output.contents), Cells(' ', gap), leftPart, middle, rightPart);
  }

  method WriteLoopTop(output: Builder, l: Layout, row: Row)
    requires BoxesFit(l) && row.LoopTop?
    modifies output
    ensures output.contents == old(output.contents) + Line(l, row)
  {
    ghost var parts := Segments(l, row);
    for i := 0 to |l.columns|
      invariant output.contents == old(output.contents) + Concat(parts, i)
    {
      WriteLoopTopSegment(output, row, l.columns[i].gap, l.half, i);
      NextPart(old(output.contents), parts, i);
    }
    output.WriteString("\n");
    Regroup(old(output.contents), RowText(l, row), "\n");
  }

  method WriteLoopBottom(output: Builder, l: Layout, row: Row)
    requires BoxesFit(l) && row.LoopBottom?
    modifies output
    ensures output.contents == old(output.contents) + Line(l, row)
  {
    ghost var parts := Segments(l, row);
    for i := 0 to |l.columns|
      invariant output.contents == old(output.contents) + Concat(parts, i)
    {
      WriteLoopBottomSegment(output, row, l.columns[i].gap, l.half, i);
      NextPart(old(output.contents), parts, i);
    }
    output.WriteString("\n");
    Regroup(old(output.contents), RowText(l, row), "\n");
  }

  method ShaftGlyph(link: Link, dead: set<int>, i: nat) returns (middle: char)
    requires link.from != link.to && (link.goingRight <==> link.from < link.to)
    ensures middle == Glyph(Shaft(link, dead), i)
  {
    middle := '│';
    if i in dead {
      middle := ' ';
    }
    if link.goingRight {
      if i == link.from {
        middle := '├';
      }
      if i == link.to {
        middle := '▶';
      }
      if link.from < i && i < link.to {
        middle := '┼';
      }
    } else {
      if i == link.from {
        middle := '┤';
      }
      if i == link.to {
        middle := '◀';
      }
      if link.to < i && i < link.from {
        middle := '┼';
      }
    }
  }

  method WriteShaftSegment(output: Builder, row: Row, gap: nat, half: nat, i: nat)
    requires row.Shaft? && row.link.from != row.link.to && (row.link.goingRight <==> row.link.from < row.link.to)
    modifies output
    ensures output.contents == old(output.contents) + ShaftSegment(row, gap, half, i)
  {
    var link := row.link;
    var halfFull := Cells(if link.dropped then '╌' else '─', half);
    var leftPart, rightPart := Cells(' ', half), Cells(' ', half);
    var pad := ' ';
    if (link.goingRight && link.from < i && i <= link.to) || (!link.goingRight && link.to < i && i <= link.from) {
      pad := if link.dropped then '╌' else '─';
      leftPart := halfFull;
    }
    WriteCells(output, pad, gap);
    output.WriteString(leftPart);
    var middle := ShaftGlyph(link, row.dead, i);
    output.WriteString([middle]);
    if link.goingRight && link.from <= i && i < link.to {
      rightPart := halfFull;
    } else if !link.goingRight && link.to <= i && i < link.from {
      rightPart := halfFull;
    }
    output.WriteString(rightPart);
    Regroup4(old(output.contents), Cells(pad, gap), leftPart, [middle], rightPart);
  }

  method WriteShaft(output: Builder, l: Layout, row: Row)
    requires row.Shaft? && row.link.from != row.link.to && (row.link.goingRight <==> row.link.from < row.link.to)
    modifies output
    ensures output.contents == old(output.contents) + Line(l, row)
  {
    ghost var parts := Segments(l, row);
    for i := 0 to |l.columns|
      invariant output.contents == old(output.contents) + Concat(parts, i)
    {
      WriteShaftSegment(output, row, l.columns[i].gap, l.half, i);
      NextPart(old(output.contents), parts, i);
    }
    output.WriteString("\n");
    Regroup(old(output.contents), RowText(l, row), "\n");
  }

  method AppendCrashes(output: Builder, l: Layout, struck: seq<int>, dead: set<int>)
    requires BoxesFit(l)
    modifies output
    ensures output.contents == old(output.contents) + Text(l, CrashRows(struck, dead))
  {
    var top, middle, bottom := Crash(Top, struck, dead), Crash(Middle, struck, dead), Crash(Bottom, struck, dead);
    WriteCrash(output, l, top);
    WriteCrash(output, l, middle);
    WriteCrash(output, l, bottom);
    TextOfThree(l, top, middle, bottom);
    Regroup3(old(output.contents), Line(l, top), Line(l, middle), Line(l, bottom));
  }

  method AppendLoop(output: Builder, l: Layout, link: Link, dead: set<int>)
    requires BoxesFit(l) && link.from == link.to
    modifies output
    ensures output.contents == old(output.contents) + Text(l, ShaftRows(link, dead))
  {
    var top, bottom := LoopTop(link, dead), LoopBottom(link, dead);
    WriteLoopTop(output, l, top);
    WriteLoopBottom(output, l, bottom);
    TextOfTwo(l, top, bottom);
    Regroup(old(output.contents), Line(l, top), Line(l, bottom));
  }

  method AppendShaft(output: Builder, l: Layout, link: Link, dead: set<int>)
    requires BoxesFit(l) && HasRoom(l, link)
    modifies output
    ensures output.contents == old(output.contents) + Text(l, ShaftRows(link, dead))
  {
    if link.to == link.from {
      AppendLoop(output, l, link, dead);
    } else {
      WriteShaft(output, l, Shaft(link, dead));
      TextOfOne(l, Shaft(link, dead));
    }
  }

  lemma LinkText(l: Layout, link: Link, crashes: Struck, dead: set<int>)
    ensures
      Text(l, CrashRowsAt(link.at, crashes, dead)) + Line(l, Annotation(link, dead)) + Text(l, ShaftRows(link, dead))
      == Text(l, LinkRows(link, crashes, dead))
  {
    var first := CrashRowsAt(link.at, crashes, dead);
    TextSnoc(l, first, Annotation(link, dead));
    TextAppend(l, first + [Annotation(link, dead)], ShaftRows(link, dead));
  }

  method MarkDead(struck: seq<int>, deadBefore: set<int>) returns (dead: set<int>)
    ensures dead == deadBefore + ToSet(struck)
  {
    dead := deadBefore;
    for j := 0 to |struck|
      invariant dead == deadBefore + ToSet(struck[..j])
    {
      dead := dead + {struck[j]};
    }
    assert struck[..|struck|] == struck;
  }

  /** What one arrow appends, and the nodes dead from then on. */
  method AppendArrow(output: Builder, l: Layout, link: Link, crashes: Struck, deadBefore: set<int>)
    returns (dead: set<int>)
    requires BoxesFit(l) && HasRoom(l, link)
    modifies output
    ensures dead == deadBefore + StruckAt(link.at, crashes)
    ensures output.contents == old(output.contents) + Text(l, LinkRows(link, crashes, dead))
  {
    dead := deadBefore;
    if link.at in crashes {
      dead := MarkDead(crashes[link.at], dead);
      AppendCrashes(output, l, crashes[link.at], dead);
    }
    assert output.contents == old(output.contents) + Text(l, CrashRowsAt(link.at, crashes, dead));
    WriteAnnotation(output, l, Annotation(link, dead));
    AppendShaft(output, l, link, dead);
    Regroup3(old(output.contents), Text(l, CrashRowsAt(link.at, crashes, dead)),
             Line(l, Annotation(link, dead)), Text(l, ShaftRows(link, dead)));
    LinkText(l, link, crashes, dead);
  }

  lemma NextLink(before: string, l: Layout, links: seq<Link>, crashes: Struck, k: nat)
    requires k < |links|
    ensures
      before + Text(l, Rows(links, crashes, k)) + Text(l, LinkRows(links[k], crashes, Dead(links, crashes, k + 1)))
      == before + Text(l, Rows(links, crashes, k + 1))
  {
    var rows := LinkRows(links[k], crashes, Dead(links, crashes, k + 1));
    TextAppend(l, Rows(links, crashes, k), rows);
    Regroup(before, Text(l, Rows(links, crashes, k)), Text(l, rows));
  }

  method AppendNext(output: Builder, l: Layout, links: seq<Link>, crashes: Struck, k: nat,
                    deadBefore: set<int>, ghost before: string)
    returns (dead: set<int>)
    requires AllHaveRoom(l, links) && k < |links| && deadBefore == Dead(links, crashes, k)
    requires output.contents == before + Text(l, Rows(links, crashes, k))
    modifies output
    ensures dead == Dead(links, crashes, k + 1)
    ensures output.contents == before + Text(l, Rows(links, crashes, k + 1))
  {
    dead := AppendArrow(output, l, links[k], crashes, deadBefore);
    NextLink(before, l, links, crashes, k);
  }

  /** The source counts row by row; whether the mark was found is settled before an arrow's first row. */
  method CountRows(links: seq<Link>, crashes: Struck, k: nat, foundBefore: bool, lineBefore: nat)
    returns (foundLine: bool, line: nat)
    requires k < |links| && foundBefore == AnyMarked(links, k) && lineBefore == RowsAboveMark(links, crashes, k)
    ensures foundLine == AnyMarked(links, k + 1) && line == RowsAboveMark(links, crashes, k + 1)
  {
    foundLine, line := foundBefore, lineBefore;
    if links[k].marked {
      foundLine := true;
    }
    if !foundLine {
      line := line + RowCount(links[k], crashes);
    }
  }

  method AppendArrows(output: Builder, l: Layout, links: seq<Link>, crashes: Struck)
    returns (line: nat)
    requires AllHaveRoom(l, links)
    modifies output
    ensures output.contents == old(output.contents) + Text(l, Rows(links, crashes, |links|))
    ensures line == RowsAboveMark(links, crashes, |links|)
  {
    var dead: set<int> := {};
    line := 0;
    var foundLine := false;
    for k := 0 to |links|
      invariant dead == Dead(links, crashes, k) && foundLine == AnyMarked(links, k)
      invariant output.contents == old(output.contents) + Text(l, Rows(links, crashes, k))
      invariant line == RowsAboveMark(links, crashes, k)
    {
      foundLine, line := CountRows(links, crashes, k, foundLine, line);
      dead := AppendNext(output, l, links, crashes, k, dead, old(output.contents));
    }
  }
}

/** From arrows to a drawn diagram: the columns, the gaps between them, and the two texts. */
module DiagramDrawing {
  import opened TextBuilder
  import opened SequenceLayout
  import opened SequenceDrawing

  method Index(haystack: seq<string>, needle: string) returns (r: int)
    ensures r == IndexOf(haystack, needle)
  {
    for i := 0 to |haystack|
      invariant needle !in haystack[..i]
    {
      if haystack[i] == needle {
        IndexOfIsFirst(haystack, needle, i);
        return i;
      }
    }
    assert haystack[..|haystack|] == haystack;
    return -1;
  }

  method AddName(known: seq<string>, name: string) returns (names: seq<string>)
    ensures names == Known(known, name)
  {
    names := known;
    var i := Index(names, name);
    if i == -1 {
      names := names + [name];
    }
  }

  method CollectNames(arrows: seq<Arrow>) returns (names: seq<string>)
    ensures names == Names(arrows, |arrows|)
  {
    names := [];
    for k := 0 to |arrows|
      invariant names == Names(arrows, k)
    {
      names := AddName(names, arrows[k].from);
      names := AddName(names, arrows[k].to);
    }
  }

  method MeasureBoxes(names: seq<string>) returns (boxSize: nat)
    ensures boxSize == BoxSize(names)
  {
    boxSize := 3;
    for k := 0 to |names|
      invariant boxSize == WidestBox(names, k)
    {
      var own := 4 + |names[k]| + (|names[k]| + 1) % 2;
      if boxSize < own {
        boxSize := own;
      }
    }
  }

  method IndexAll(names: seq<string>, crashedNodes: seq<string>) returns (targets: seq<int>)
    ensures targets == Indices(names, crashedNodes)
  {
    targets := [];
    for k := 0 to |crashedNodes|
      invariant targets == Indices(names, crashedNodes[..k])
    {
      var target := Index(names, crashedNodes[k]);
      targets := targets + [target];
    }
    assert crashedNodes[..|crashedNodes|] == crashedNodes;
  }

  /** The source walks the map in an unspecified order. */
  method IndexCrashes(names: seq<string>, crashes: Crashes) returns (crashInformation: Struck)
    ensures crashInformation == CrashIndices(names, crashes)
  {
    crashInformation := map[];
    var rest := crashes.Keys;
    while rest != {}
      invariant rest <= crashes.Keys
      invariant crashInformation == CrashIndices(names, crashes) - rest
      decreases rest
    {
      var at :| at in rest;
      rest := rest - {at};
      var targets := IndexAll(names, crashes[at]);
      crashInformation := crashInformation[at := targets];
    }
  }

  method MakeLink(names: seq<string>, arrow: Arrow, markerSize: nat, marked: bool) returns (link: Link)
    requires arrow.from in names && arrow.to in names
    ensures link == LinkOf(names, arrow, markerSize, marked) && link.gap == GapOf(names, arrow) < |names|
  {
    var from := Index(names, arrow.from);
    var to := Index(names, arrow.to);
    var goingRight := true;
    if to < from {
      goingRight := false;
    }
    var gap := from;
    if goingRight {
      gap := gap + 1;
    }
    if from == to && from == |names| - 1 {
      goingRight := false;
      gap := from;
    }
    var message;
    if marked {
      message := Cells('>', markerSize) + arrow.message + Cells('<', markerSize);
    } else {
      message := Cells(' ', markerSize) + arrow.message + Cells(' ', markerSize);
    }
    link := Link(from, to, arrow.at, message, arrow.dropped, goingRight, gap, marked);
  }

  method Widen(gaps: array<nat>, g: nat, room: nat)
    requires g < gaps.Length
    modifies gaps
    ensures gaps[g] == if old(gaps[g]) < room then room else old(gaps[g])
    ensures forall h: nat | h < gaps.Length && h != g :: gaps[h] == old(gaps[h])
  {
    if gaps[g] < room {
      gaps[g] := room;
    }
  }

  /** Widens gaps, in place, to what the arrows ask for. */
  method MakeLinks(names: seq<string>, arrows: seq<Arrow>, settings: Settings, gaps: array<nat>)
    returns (links: seq<Link>)
    requires Covers(names, arrows) && gaps.Length == |names|
    requires forall g: nat | g < gaps.Length :: gaps[g] == 0
    modifies gaps
    ensures forall g: nat | g < gaps.Length :: gaps[g] == Demand(names, arrows, settings.markerSize, |arrows|, g)
    ensures |links| == |arrows|
    ensures forall j | 0 <= j < |arrows| ::
              links[j] == LinkOf(names, arrows[j], settings.markerSize, j == settings.markAt)
  {
    links := [];
    for k := 0 to |arrows|
      invariant forall g: nat | g < gaps.Length :: gaps[g] == Demand(names, arrows, settings.markerSize, k, g)
      invariant |links| == k
      invariant forall j | 0 <= j < k ::
                  links[j] == LinkOf(names, arrows[j], settings.markerSize, j == settings.markAt)
    {
      var link := MakeLink(names, arrows[k], settings.markerSize, k == settings.markAt);
      Widen(gaps, link.gap, |arrows[k].message| + 2 * settings.markerSize);
      links := links + [link];
    }
  }

  /** Takes what two half boxes give off every gap, in place. */
  method ShrinkGaps(gaps: array<nat>, boxSize: nat)
    requires boxSize > 0
    modifies gaps
    ensures forall g | 0 <= g < gaps.Length :: gaps[g] == Gap(old(gaps[g]), boxSize)
  {
    for i := 0 to gaps.Length
      invariant forall g | 0 <= g < i :: gaps[g] == Gap(old(gaps[g]), boxSize)
      invariant forall g | i <= g < gaps.Length :: gaps[g] == old(gaps[g])
    {
      if gaps[i] < boxSize - 1 {
        gaps[i] := 0;
      } else {
        gaps[i] := gaps[i] - (boxSize - 1);
      }
    }
  }

  /** Columns for names whose gaps hold the demand of the arrows. */
  method MakeLayout(arrows: seq<Arrow>, markerSize: nat, names: seq<string>, gaps: array<nat>, boxSize: nat)
    returns (l: Layout)
    requires names == Names(arrows, |arrows|) && Covers(names, arrows) && boxSize == BoxSize(names)
    requires gaps.Length == |names| && boxSize > 0
    requires forall g: nat | g < gaps.Length :: gaps[g] == Demand(names, arrows, markerSize, |arrows|, g)
    modifies gaps
    ensures l == LayoutOf(arrows, markerSize)
  {
    ShrinkGaps(gaps, boxSize);
    ghost var columns := LayoutOf(arrows, markerSize).columns;
    l := Layout(seq(|names|, i requires 0 <= i < |names| reads gaps requires i < gaps.Length => Column(names[i], gaps[i])),
                boxSize / 2);
    assert forall i: nat | i < |names| :: l.columns[i] == columns[i];
  }

  method Prepare(arrows: seq<Arrow>, settings: Settings)
    returns (l: Layout, links: seq<Link>, crashInformation: Struck, boxSize: nat)
    ensures l == LayoutOf(arrows, settings.markerSize) && links == LinksOf(arrows, settings)
    ensures crashInformation == CrashIndices(Names(arrows, |arrows|), settings.crashes)
    ensures boxSize == 2 * l.half + 1
  {
    var names := CollectNames(arrows);
    NamesCover(arrows);
    crashInformation := IndexCrashes(names, settings.crashes);
    var gaps := new nat[|names|](i => 0);
    links := MakeLinks(names, arrows, settings, gaps);
    boxSize := MeasureBoxes(names);
    WidestBoxFits(names, |names|, 0);
    l := MakeLayout(arrows, settings.markerSize, names, gaps, boxSize);
  }

  lemma EmptyLeft(t: string)
    ensures "" + t == t
  {
  }

  method DrawHeader(l: Layout, boxSize: nat) returns (header: string)
    requires BoxesFit(l) && boxSize == 2 * l.half + 1
    ensures header == Boxes(l, true)
  {
    var output := new Builder();
    AppendBoxes(true, output, l, boxSize);
    EmptyLeft(Boxes(l, true));
    header := output.contents;
  }

  method DrawBody(l: Layout, links: seq<Link>, crashes: Struck, boxSize: nat)
    returns (text: string, line: nat)
    requires AllHaveRoom(l, links) && boxSize == 2 * l.half + 1
    ensures text == Text(l, Rows(links, crashes, |links|)) + Boxes(l, false)
    ensures line == RowsAboveMark(links, crashes, |links|)
  {
    var output := new Builder();
    line := AppendArrows(output, l, links, crashes);
    EmptyLeft(Text(l, Rows(links, crashes, |links|)));
    AppendBoxes(false, output, l, boxSize);
    text := output.contents;
  }

  /** Without an arrow there is no box, which is a panic. */
  method DrawDiagram(arrows: seq<Arrow>, settings: Settings)
    returns (header: string, text: string, line: nat)
    requires arrows != []
    ensures header == HeaderOf(arrows, settings.markerSize)
    ensures Diagram(text, line) == DiagramOf(arrows, settings)
  {
    var l, links, crashInformation, boxSize := Prepare(arrows, settings);
    EveryLayoutFits(arrows, settings);
    header := DrawHeader(l, boxSize);
    text, line := DrawBody(l, links, crashInformation, boxSize);
  }
}

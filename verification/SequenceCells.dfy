/** Every cell of a drawn diagram as a literal, in terms of the arrows and the crashes alone. */
module SequenceCells {
  import opened TextBuilder
  import opened SequenceLayout
  import opened SequenceAlignment

  // What the arrows and the crashes say

  /** The node crashes at the time of arrow k. */
  predicate Hit(arrows: seq<Arrow>, crashes: Crashes, k: nat, name: string)
    requires k < |arrows|
  {
    arrows[k].at in crashes && name in crashes[arrows[k].at]
  }

  /** The node has crashed at the time of arrow k or of an arrow above it. */
  ghost predicate Gone(arrows: seq<Arrow>, crashes: Crashes, k: nat, name: string)
    requires k < |arrows|
  {
    exists j: nat :: j <= k && Hit(arrows, crashes, j, name)
  }

  /** Three rows if somebody crashes at this time, one for the message, and two for a loop or one for an arrow. */
  function HeightOf(arrow: Arrow, crashes: Crashes): nat {
    (if arrow.at in crashes then 3 else 0) + 1 + (if arrow.from == arrow.to then 2 else 1)
  }

  /** The rows above those of arrow k. */
  function RowsAbove(arrows: seq<Arrow>, crashes: Crashes, k: nat): nat
    requires k <= |arrows|
  {
    if k == 0 then 0 else RowsAbove(arrows, crashes, k - 1) + HeightOf(arrows[k - 1], crashes)
  }

  /** The row of the message of arrow k. */
  function MessageRow(arrows: seq<Arrow>, crashes: Crashes, k: nat): nat
    requires k < |arrows|
  {
    RowsAbove(arrows, crashes, k) + if arrows[k].at in crashes then 3 else 0
  }

  // Names and columns

  lemma {:induction false} DistinctIndex(names: seq<string>, i: nat, name: string)
    requires Distinct(names) && i < |names|
    ensures IndexOf(names, name) == i <==> name == names[i]
  {
    var last := |names| - 1;
    if i < last {
      DistinctIndex(names[..last], i, name);
    } else if name == names[last] {
      assert IndexOf(names[..last], name) == -1;
    }
  }

  lemma {:induction false} IndicesHold(names: seq<string>, nodes: seq<string>, i: nat)
    requires Distinct(names) && i < |names|
    ensures i in Indices(names, nodes) <==> names[i] in nodes
  {
    if i in Indices(names, nodes) {
      var j :| 0 <= j < |nodes| && Indices(names, nodes)[j] == i;
      DistinctIndex(names, i, nodes[j]);
    }
    if names[i] in nodes {
      var j :| 0 <= j < |nodes| && nodes[j] == names[i];
      DistinctIndex(names, i, nodes[j]);
      assert Indices(names, nodes)[j] == i;
    }
  }

  lemma {:induction false} StruckIffHit(arrows: seq<Arrow>, crashes: Crashes, names: seq<string>, k: nat, i: nat)
    requires k < |arrows| && Distinct(names) && i < |names|
    ensures i in StruckAt(arrows[k].at, CrashIndices(names, crashes)) <==> Hit(arrows, crashes, k, names[i])
    ensures arrows[k].at in crashes ==>
      (i in CrashIndices(names, crashes)[arrows[k].at] <==> Hit(arrows, crashes, k, names[i]))
  {
    if arrows[k].at in crashes {
      IndicesHold(names, crashes[arrows[k].at], i);
    }
  }

  /** The links keep of the arrows what decides about rows and crashes. */
  predicate Matches(arrows: seq<Arrow>, links: seq<Link>) {
    |links| == |arrows| &&
    forall k | 0 <= k < |arrows| ::
      links[k].at == arrows[k].at && (links[k].from == links[k].to <==> arrows[k].from == arrows[k].to)
  }

  lemma {:induction false} GoneStep(arrows: seq<Arrow>, crashes: Crashes, k: nat, name: string)
    requires k < |arrows|
    ensures Gone(arrows, crashes, k, name) <==>
      Hit(arrows, crashes, k, name) || (k > 0 && Gone(arrows, crashes, k - 1, name))
  {
  }

  lemma {:induction false} DeadIffGone(arrows: seq<Arrow>, links: seq<Link>, names: seq<string>, crashes: Crashes,
                                       k: nat, i: nat)
    requires k < |arrows| && i < |names| && Distinct(names) && Matches(arrows, links)
    ensures i in Dead(links, CrashIndices(names, crashes), k + 1) <==> Gone(arrows, crashes, k, names[i])
  {
    StruckIffHit(arrows, crashes, names, k, i);
    GoneStep(arrows, crashes, k, names[i]);
    if k > 0 {
      DeadIffGone(arrows, links, names, crashes, k - 1, i);
    }
  }

  // Pictures

  /** A drawing: its columns, its links and its rows. */
  datatype Picture = Picture(
    arrows: seq<Arrow>,
    settings: Settings,
    crashes: Crashes,
    names: seq<string>,
    l: Layout,
    links: seq<Link>,
    rows: seq<Row>)

  function PictureOf(arrows: seq<Arrow>, settings: Settings): Picture {
    var names, links := Names(arrows, |arrows|), LinksOf(arrows, settings);
    Picture(arrows, settings, settings.crashes, names, LayoutOf(arrows, settings.markerSize), links,
            Rows(links, CrashIndices(names, settings.crashes), |links|))
  }

  /** Row n of the diagram, without its newline. */
  function Shown(d: Picture, n: nat): string
    requires n < |d.rows|
  {
    RowText(d.l, d.rows[n])
  }

  predicate NamesColumns(names: seq<string>, l: Layout) {
    |l.columns| == |names| && forall i | 0 <= i < |names| :: l.columns[i].name == names[i]
  }

  predicate KeepsEnds(arrows: seq<Arrow>, names: seq<string>, links: seq<Link>)
    requires |links| == |arrows|
  {
    forall k | 0 <= k < |arrows| ::
      && links[k].from < |names| && names[links[k].from] == arrows[k].from
      && links[k].to < |names| && names[links[k].to] == arrows[k].to
      && links[k].dropped == arrows[k].dropped
  }

  /** The message of arrow k between its markers. */
  function Marked(arrows: seq<Arrow>, settings: Settings, k: nat): (message: string)
    requires k < |arrows|
    ensures |message| == |arrows[k].message| + 2 * settings.markerSize
    ensures forall o | 0 <= o < settings.markerSize :: message[o] == if k == settings.markAt then '>' else ' '
    ensures message[settings.markerSize..settings.markerSize + |arrows[k].message|] == arrows[k].message
    ensures forall o | settings.markerSize + |arrows[k].message| <= o < |message| ::
              message[o] == if k == settings.markAt then '<' else ' '
  {
    Cells(if k == settings.markAt then '>' else ' ', settings.markerSize) + arrows[k].message
    + Cells(if k == settings.markAt then '<' else ' ', settings.markerSize)
  }

  predicate KeepsMessages(arrows: seq<Arrow>, settings: Settings, links: seq<Link>)
    requires |links| == |arrows|
  {
    forall k | 0 <= k < |arrows| :: links[k].message == Marked(arrows, settings, k)
  }

  ghost predicate Depicts(d: Picture) {
    && Distinct(d.names) && NamesColumns(d.names, d.l)
    && Matches(d.arrows, d.links) && KeepsEnds(d.arrows, d.names, d.links)
    && KeepsMessages(d.arrows, d.settings, d.links) && AllHaveRoom(d.l, d.links)
    && d.rows == Rows(d.links, CrashIndices(d.names, d.crashes), |d.links|)
  }

  lemma {:induction false} ColumnNames(arrows: seq<Arrow>, markerSize: nat)
    ensures NamesColumns(Names(arrows, |arrows|), LayoutOf(arrows, markerSize))
  {
  }

  lemma {:induction false} LinksKeep(arrows: seq<Arrow>, settings: Settings, names: seq<string>)
    requires names == Names(arrows, |arrows|)
    ensures Matches(arrows, LinksOf(arrows, settings)) && KeepsEnds(arrows, names, LinksOf(arrows, settings))
  {
    NamesCover(arrows);
  }

  lemma {:induction false} LinksAreMarked(arrows: seq<Arrow>, settings: Settings)
    ensures KeepsMessages(arrows, settings, LinksOf(arrows, settings))
  {
    NamesCover(arrows);
  }

  lemma {:induction false} PictureDepicts(arrows: seq<Arrow>, settings: Settings)
    ensures Depicts(PictureOf(arrows, settings))
  {
    NamesAreDistinct(arrows, |arrows|);
    ColumnNames(arrows, settings.markerSize);
    LinksKeep(arrows, settings, Names(arrows, |arrows|));
    LinksAreMarked(arrows, settings);
    EveryLayoutFits(arrows, settings);
  }

  /** Columns f and t are those of the sender and the receiver. */
  predicate Ends(l: Layout, arrow: Arrow, f: nat, t: nat) {
    f < |l.columns| && t < |l.columns| && l.columns[f].name == arrow.from && l.columns[t].name == arrow.to
  }

  lemma {:induction false} SameColumn(names: seq<string>, i: nat, j: nat)
    requires Distinct(names) && i < |names| && j < |names| && names[i] == names[j]
    ensures i == j
  {
    DistinctIndex(names, i, names[i]);
    DistinctIndex(names, j, names[i]);
  }

  lemma {:induction false} LinkEnds(d: Picture, k: nat, f: nat, t: nat)
    requires Depicts(d) && k < |d.arrows| && Ends(d.l, d.arrows[k], f, t)
    ensures d.links[k].from == f && d.links[k].to == t
    ensures f == t <==> d.arrows[k].from == d.arrows[k].to
  {
    SameColumn(d.names, d.links[k].from, f);
    SameColumn(d.names, d.links[k].to, t);
  }

  // Which row is which

  lemma {:induction false} RowsAreCounted(arrows: seq<Arrow>, links: seq<Link>, names: seq<string>, crashes: Crashes,
                                          k: nat)
    requires k <= |arrows| && Matches(arrows, links)
    ensures |Rows(links, CrashIndices(names, crashes), k)| == RowsAbove(arrows, crashes, k)
  {
    if k > 0 {
      RowsAreCounted(arrows, links, names, crashes, k - 1);
    }
  }

  lemma {:induction false} RowsInPlace(arrows: seq<Arrow>, links: seq<Link>, names: seq<string>, crashes: Crashes, k: nat, j: nat)
    requires k < |arrows| && Matches(arrows, links) && j < HeightOf(arrows[k], crashes)
    ensures
      var struck := CrashIndices(names, crashes);
      var all, rows := Rows(links, struck, |links|), LinkRows(links[k], struck, Dead(links, struck, k + 1));
      && |rows| == HeightOf(arrows[k], crashes)
      && RowsAbove(arrows, crashes, k) + j < |all| && all[RowsAbove(arrows, crashes, k) + j] == rows[j]
  {
    var struck := CrashIndices(names, crashes);
    RowsAreCounted(arrows, links, names, crashes, k);
    RowsGrow(links, struck, k, |arrows|);
    assert Rows(links, struck, k + 1)[RowsAbove(arrows, crashes, k) + j]
      == LinkRows(links[k], struck, Dead(links, struck, k + 1))[j];
  }

  lemma {:induction false} LinkRowsAre(link: Link, struck: Struck, dead: set<int>)
    ensures
      var rows, c := LinkRows(link, struck, dead), if link.at in struck then 3 else 0;
      && |rows| == c + (if link.from == link.to then 3 else 2)
      && (c == 3 ==>
            && rows[0] == Crash(Top, struck[link.at], dead) && rows[1] == Crash(Middle, struck[link.at], dead)
            && rows[2] == Crash(Bottom, struck[link.at], dead))
      && rows[c] == Annotation(link, dead)
      && (link.from != link.to ==> rows[c + 1] == Shaft(link, dead))
      && (link.from == link.to ==> rows[c + 1] == LoopTop(link, dead) && rows[c + 2] == LoopBottom(link, dead))
  {
  }

  /** The link and the crashed columns of arrow k. */
  ghost predicate At(d: Picture, k: nat, link: Link, dead: set<int>) {
    && k < |d.arrows| && |d.links| == |d.arrows| && link == d.links[k]
    && HasRoom(d.l, link) && BoxesFit(d.l) && link.dropped == d.arrows[k].dropped
    && forall i: nat | i < |d.l.columns| :: i in dead <==> Gone(d.arrows, d.crashes, k, d.l.columns[i].name)
  }

  lemma {:induction false} DeadColumns(d: Picture, k: nat, dead: set<int>)
    requires Depicts(d) && k < |d.arrows| && dead == Dead(d.links, CrashIndices(d.names, d.crashes), k + 1)
    ensures At(d, k, d.links[k], dead)
  {
    forall i: nat | i < |d.l.columns|
      ensures i in dead <==> Gone(d.arrows, d.crashes, k, d.l.columns[i].name)
    {
      DeadIffGone(d.arrows, d.links, d.names, d.crashes, k, i);
    }
  }

  lemma {:induction false} MessageRowsInPlace(arrows: seq<Arrow>, links: seq<Link>, names: seq<string>, crashes: Crashes,
                                              k: nat, j: nat, n: nat)
    requires k < |arrows| && Matches(arrows, links) && j < (if arrows[k].from == arrows[k].to then 3 else 2)
    requires n == MessageRow(arrows, crashes, k) + j
    ensures
      var struck := CrashIndices(names, crashes);
      var all, link, dead := Rows(links, struck, |links|), links[k], Dead(links, struck, k + 1);
      && n < |all|
      && all[n] == if j == 0 then Annotation(link, dead)
                   else if arrows[k].from != arrows[k].to then Shaft(link, dead)
                   else if j == 1 then LoopTop(link, dead) else LoopBottom(link, dead)
  {
    var struck := CrashIndices(names, crashes);
    LinkRowsAre(links[k], struck, Dead(links, struck, k + 1));
    RowsInPlace(arrows, links, names, crashes, k, (if arrows[k].at in crashes then 3 else 0) + j);
  }

  lemma {:induction false} CrashRowsInPlace(arrows: seq<Arrow>, links: seq<Link>, names: seq<string>, crashes: Crashes,
                                            k: nat, j: nat, n: nat)
    requires k < |arrows| && Matches(arrows, links) && arrows[k].at in crashes && j < 3
    requires n == RowsAbove(arrows, crashes, k) + j
    ensures
      var struck := CrashIndices(names, crashes);
      var all, dead := Rows(links, struck, |links|), Dead(links, struck, k + 1);
      n < |all| && all[n] == Crash(if j == 0 then Top else if j == 1 then Middle else Bottom, struck[arrows[k].at], dead)
  {
    var struck := CrashIndices(names, crashes);
    LinkRowsAre(links[k], struck, Dead(links, struck, k + 1));
    RowsInPlace(arrows, links, names, crashes, k, j);
  }

  lemma {:induction false} RowsUnderMessage(d: Picture, k: nat, j: nat, n: nat) returns (link: Link, dead: set<int>)
    requires Depicts(d) && k < |d.arrows| && j < (if d.arrows[k].from == d.arrows[k].to then 3 else 2)
    requires n == MessageRow(d.arrows, d.crashes, k) + j
    ensures At(d, k, link, dead)
    ensures n < |d.rows|
    ensures d.rows[n] == if j == 0 then Annotation(link, dead)
                         else if d.arrows[k].from != d.arrows[k].to then Shaft(link, dead)
                         else if j == 1 then LoopTop(link, dead) else LoopBottom(link, dead)
  {
    link := d.links[k];
    dead := Dead(d.links, CrashIndices(d.names, d.crashes), k + 1);
    DeadColumns(d, k, dead);
    MessageRowsInPlace(d.arrows, d.links, d.names, d.crashes, k, j, n);
  }

  lemma {:induction false} CrashRow(d: Picture, k: nat, j: nat, n: nat, i: nat) returns (row: Row)
    requires Depicts(d) && k < |d.arrows| && d.arrows[k].at in d.crashes && i < |d.l.columns|
    requires j < 3 && n == RowsAbove(d.arrows, d.crashes, k) + j
    ensures n < |d.rows| && d.rows[n] == row && row.Crash? && BoxesFit(d.l)
    ensures row.part == if j == 0 then Top else if j == 1 then Middle else Bottom
    ensures i in row.struck <==> Hit(d.arrows, d.crashes, k, d.l.columns[i].name)
    ensures i in row.dead <==> Gone(d.arrows, d.crashes, k, d.l.columns[i].name)
  {
    var struck := CrashIndices(d.names, d.crashes);
    var dead := Dead(d.links, struck, k + 1);
    DeadColumns(d, k, dead);
    StruckIffHit(d.arrows, d.crashes, d.names, k, i);
    CrashRowsInPlace(d.arrows, d.links, d.names, d.crashes, k, j, n);
    row := d.rows[n];
  }

  /** What a diagram consists of: its rows and, at the end, the three rows of boxes. */
  function Lines(rows: seq<string>): string {
    if rows == [] then "" else Lines(rows[..|rows| - 1]) + rows[|rows| - 1] + "\n"
  }

  function Texts(l: Layout, rows: seq<Row>): (texts: seq<string>)
    ensures |texts| == |rows|
  {
    seq(|rows|, n requires 0 <= n < |rows| => RowText(l, rows[n]))
  }

  lemma {:induction false} TextIsLines(l: Layout, rows: seq<Row>)
    ensures Text(l, rows) == Lines(Texts(l, rows))
  {
    if rows != [] {
      TextIsLines(l, rows[..|rows| - 1]);
      assert Texts(l, rows)[..|rows| - 1] == Texts(l, rows[..|rows| - 1]);
    }
  }

  lemma {:induction false} TwoLines(a: string, b: string)
    ensures Lines([a, b]) == a + "\n" + (b + "\n")
  {
    assert [a, b][..1] == [a] && [a][..0] == [];
    assert Lines([a]) == "" + a + "\n" == a + "\n";
    Regroup(a + "\n", b, "\n");
  }

  lemma {:induction false} BoxesAre(l: Layout)
    ensures Boxes(l, false)
         == RowText(l, Border('╭', '┴', '╮')) + "\n" + (RowText(l, NameRow) + "\n") + RowText(l, Border('╰', '─', '╯'))
    ensures Boxes(l, true)
         == RowText(l, Border('╭', '─', '╮')) + "\n" + (RowText(l, NameRow) + "\n") + RowText(l, Border('╰', '┬', '╯'))
  {
  }

  function AllShown(d: Picture): (rows: seq<string>)
    ensures |rows| == |d.rows|
  {
    seq(|d.rows|, n requires 0 <= n < |d.rows| => Shown(d, n))
  }

  lemma {:induction false} ShownAreTexts(d: Picture)
    ensures AllShown(d) == Texts(d.l, d.rows)
  {
  }

  lemma {:induction false} PictureText(d: Picture)
    requires Depicts(d)
    ensures |AllShown(d)| == RowsAbove(d.arrows, d.crashes, |d.arrows|)
    ensures Text(d.l, d.rows) + Boxes(d.l, false) == Lines(AllShown(d))
      + (Lines([RowText(d.l, Border('╭', '┴', '╮')), RowText(d.l, NameRow)]) + RowText(d.l, Border('╰', '─', '╯')))
  {
    RowsAreCounted(d.arrows, d.links, d.names, d.crashes, |d.arrows|);
    TextIsLines(d.l, d.rows);
    ShownAreTexts(d);
    TwoLines(RowText(d.l, Border('╭', '┴', '╮')), RowText(d.l, NameRow));
    BoxesAre(d.l);
  }

  /** The text of every diagram is the rows of its picture, each on a line of its own, above a row of boxes. */
  lemma {:induction false} EveryDiagramIsAPicture(arrows: seq<Arrow>, settings: Settings, d: Picture)
    requires d == PictureOf(arrows, settings)
    ensures Depicts(d) && d.arrows == arrows && d.settings == settings && d.crashes == settings.crashes
    ensures |d.rows| == RowsAbove(arrows, settings.crashes, |arrows|)
    ensures DiagramOf(arrows, settings).text == Lines(AllShown(d))
      + (Lines([RowText(d.l, Border('╭', '┴', '╮')), RowText(d.l, NameRow)]) + RowText(d.l, Border('╰', '─', '╯')))
  {
    PictureDepicts(arrows, settings);
    PictureText(d);
  }

  // Arrows

  lemma {:induction false} ShaftGlyphs(link: Link, dead: set<int>, nodes: nat, i: nat)
    requires LinkFits(link, nodes) && link.from != link.to
    ensures Glyph(Shaft(link, dead), i) ==
      if i == link.from then (if link.from < link.to then '├' else '┤')
      else if i == link.to then (if link.from < link.to then '▶' else '◀')
      else if link.from < i < link.to || link.to < i < link.from then '┼'
      else if i in dead then ' ' else '│'
  {
  }

  /**
   * At the lifelines the row of an arrow shows its tail at the sender, its head, pointing away from the sender, at
   * the receiver, a crossing at each lifeline strictly between, and elsewhere a lifeline unless the node has crashed.
   */
  lemma {:induction false} ArrowAtLifelines(d: Picture, k: nat, n: nat, f: nat, t: nat, i: nat)
    requires Depicts(d) && k < |d.arrows| && Ends(d.l, d.arrows[k], f, t) && f != t && i < |d.l.columns|
    requires n == MessageRow(d.arrows, d.crashes, k) + 1
    ensures n < |d.rows| && Col(d.l, i) < |Shown(d, n)|
    ensures Shown(d, n)[Col(d.l, i)] ==
      if i == f then (if f < t then '├' else '┤')
      else if i == t then (if f < t then '▶' else '◀')
      else if f < i < t || t < i < f then '┼'
      else if Gone(d.arrows, d.crashes, k, d.l.columns[i].name) then ' ' else '│'
  {
    LinkEnds(d, k, f, t);
    var link, dead := RowsUnderMessage(d, k, 1, n);
    FullRowLifeline(d.l, Shaft(link, dead), i);
    ShaftGlyphs(link, dead, |d.l.columns|, i);
  }

  lemma {:induction false} LowAndHigh(link: Link, nodes: nat)
    requires LinkFits(link, nodes) && link.from != link.to
    ensures Low(link) == (if link.from < link.to then link.from else link.to)
    ensures High(link) == if link.from < link.to then link.to else link.from
  {
  }

  /** Between the lifelines it shows one line, dashed if the message was dropped, from one end to the other. */
  lemma {:induction false} ArrowBetweenLifelines(d: Picture, k: nat, n: nat, f: nat, t: nat, c: nat)
    requires Depicts(d) && k < |d.arrows| && Ends(d.l, d.arrows[k], f, t) && f != t
    requires n == MessageRow(d.arrows, d.crashes, k) + 1
    requires c < Start(d.l, |d.l.columns|) && forall i: nat | i < |d.l.columns| :: c != Col(d.l, i)
    ensures n < |d.rows| && c < |Shown(d, n)|
    ensures Shown(d, n)[c] ==
      if Col(d.l, f) < c < Col(d.l, t) || Col(d.l, t) < c < Col(d.l, f) then (if d.arrows[k].dropped then '╌' else '─')
      else ' '
  {
    LinkEnds(d, k, f, t);
    var link, dead := RowsUnderMessage(d, k, 1, n);
    LowAndHigh(link, |d.l.columns|);
    ShaftIsOneLine(d.l, Shaft(link, dead), c);
    if f < t {
      StartGrows(d.l, f, t);
    } else {
      StartGrows(d.l, t, f);
    }
  }

  // Messages

  /** The row above shows every lifeline but those of crashed nodes. */
  lemma {:induction false} MessageRowAtLifelines(d: Picture, k: nat, n: nat, i: nat)
    requires Depicts(d) && k < |d.arrows| && |d.l.columns| >= 2 && i < |d.l.columns|
    requires n == MessageRow(d.arrows, d.crashes, k)
    ensures n < |d.rows| && Col(d.l, i) < |Shown(d, n)|
    ensures Shown(d, n)[Col(d.l, i)] == if Gone(d.arrows, d.crashes, k, d.l.columns[i].name) then ' ' else '│'
  {
    var link, dead := RowsUnderMessage(d, k, 0, n);
    MessageRowLifeline(d.l, Annotation(link, dead), i);
  }

  /** The gap in which the message of an arrow between columns f and t stands: the one before this column. */
  function MessageGap(f: nat, t: nat, nodes: nat): nat {
    if f < t || (f == t && f + 1 < nodes) then f + 1 else f
  }

  lemma {:induction false} GapOfLink(link: Link, nodes: nat)
    requires LinkFits(link, nodes)
    ensures link.gap == MessageGap(link.from, link.to, nodes)
  {
  }

  /** Cells between columns that neither a message nor a lifeline takes are blank. */
  lemma {:induction false} AnnotationBlank(row: Row, gap: nat, half: nat, i: nat, o: nat, slack: nat)
    requires row.Annotation? && (i == row.link.gap ==> |row.link.message| <= 2 * half + gap)
    requires i == row.link.gap ==> slack == (2 * half + gap - |row.link.message|) / 2
    requires o + 1 < |AnnotationSegment(row, gap, half, i)|
    requires i == row.link.gap ==> !(slack <= o < slack + |row.link.message|)
    ensures AnnotationSegment(row, gap, half, i)[o] == ' '
  {
  }

  lemma {:induction false} PlaceOfMessage(l: Layout, g: nat, size: nat, p: int)
    requires 0 < g < |l.columns| && p == Col(l, g - 1) + 1 + (Col(l, g) - Col(l, g - 1) - 1 - size) / 2
    ensures p == Start(l, g) - l.half + (2 * l.half + l.columns[g].gap - size) / 2
    ensures size <= 2 * l.half + l.columns[g].gap ==> Col(l, g - 1) < p <= p + size <= Col(l, g)
  {
    assert Col(l, g) - Col(l, g - 1) - 1 == 2 * l.half + l.columns[g].gap;
  }

  lemma {:induction false} MessageAt(l: Layout, row: Row, p: int)
    requires BoxesFit(l) && row.Annotation? && HasRoom(l, row.link) && row.link.gap > 0
    requires
      var g := row.link.gap;
      p == Col(l, g - 1) + 1 + (Col(l, g) - Col(l, g - 1) - 1 - |row.link.message|) / 2
    ensures Col(l, row.link.gap - 1) < p <= p + |row.link.message| <= Col(l, row.link.gap)
    ensures p + |row.link.message| <= |RowText(l, row)| && RowText(l, row)[p..p + |row.link.message|] == row.link.message
  {
    PlaceOfMessage(l, row.link.gap, |row.link.message|, p);
    MessageSlice(l, row, (2 * l.half + l.columns[row.link.gap].gap - |row.link.message|) / 2, p);
  }

  lemma {:induction false} LocateInMessageRow(l: Layout, n: nat, c: nat) returns (i: nat, o: int)
    requires 0 < n <= |l.columns| && c <= Col(l, n - 1)
    ensures i < n && c == Start(l, i) + o - if i > 0 then l.half else 0
    ensures 0 <= o <= l.columns[i].gap + l.half + if i > 0 then l.half else 0
  {
    if n > 1 && c <= Col(l, n - 2) {
      i, o := LocateInMessageRow(l, n - 1, c);
    } else {
      i, o := n - 1, c - Start(l, n - 1) + if n > 1 then l.half else 0;
    }
  }

  lemma {:induction false} BlankPart(l: Layout, row: Row, i: nat, o: nat, slack: nat)
    requires BoxesFit(l) && row.Annotation? && HasRoom(l, row.link) && row.link.gap > 0 && i < |l.columns|
    requires slack == (2 * l.half + l.columns[row.link.gap].gap - |row.link.message|) / 2
    requires o < l.columns[i].gap + l.half + if i > 0 then l.half else 0
    requires i == row.link.gap ==> !(slack <= o < slack + |row.link.message|)
    ensures o < |Segments(l, row)[i]| && Segments(l, row)[i][o] == ' '
  {
    AnnotationCells(row, l.columns[i].gap, l.half, i);
    AnnotationBlank(row, l.columns[i].gap, l.half, i, o, slack);
  }

  lemma {:induction false} BlankCell(l: Layout, row: Row, slack: nat, p: int, c: nat)
    requires BoxesFit(l) && row.Annotation? && HasRoom(l, row.link) && row.link.gap > 0
    requires slack == (2 * l.half + l.columns[row.link.gap].gap - |row.link.message|) / 2
    requires p == Start(l, row.link.gap) - l.half + slack
    requires c <= Col(l, |l.columns| - 1) && forall i: nat | i < |l.columns| :: c != Col(l, i)
    requires !(p <= c < p + |row.link.message|)
    ensures c < |RowText(l, row)| && RowText(l, row)[c] == ' '
  {
    var i, o := LocateInMessageRow(l, |l.columns|, c);
    assert c != Col(l, i);
    BlankPart(l, row, i, o, slack);
    MessageRowFills(l, row);
    CellAtStart(l, Segments(l, row), l.half, i, o, c);
  }

  /** Where the message of an arrow between columns f and t begins: centred in its gap. */
  ghost predicate Centred(l: Layout, f: nat, t: nat, size: nat, p: int)
    requires f < |l.columns| && t < |l.columns| && |l.columns| >= 2
  {
    var g := MessageGap(f, t, |l.columns|);
    0 < g < |l.columns| && p == Col(l, g - 1) + 1 + (Col(l, g) - Col(l, g - 1) - 1 - size) / 2
  }

  /** Some such place exists: no message stands left of the first lifeline or right of the last. */
  lemma {:induction false} MessageHasAPlace(l: Layout, f: nat, t: nat, size: nat) returns (p: int)
    requires f < |l.columns| && t < |l.columns| && |l.columns| >= 2
    ensures Centred(l, f, t, size, p)
  {
    var g := MessageGap(f, t, |l.columns|);
    p := Col(l, g - 1) + 1 + (Col(l, g) - Col(l, g - 1) - 1 - size) / 2;
  }

  /** Such a message stands centred between two lifelines that are next to each other. */
  lemma {:induction false} MessageCentred(l: Layout, row: Row, p: int)
    requires BoxesFit(l) && row.Annotation? && HasRoom(l, row.link) && |l.columns| >= 2
    requires Centred(l, row.link.from, row.link.to, |row.link.message|, p)
    ensures
      var g := MessageGap(row.link.from, row.link.to, |l.columns|);
      Col(l, g - 1) < p <= p + |row.link.message| <= Col(l, g)
    ensures p + |row.link.message| <= |RowText(l, row)|
    ensures RowText(l, row)[p..p + |row.link.message|] == row.link.message
  {
    GapOfLink(row.link, |l.columns|);
    MessageAt(l, row, p);
  }

  /** Nothing else is in its row but the lifelines. */
  lemma {:induction false} BlankBesideMessage(l: Layout, row: Row, p: int, c: nat)
    requires BoxesFit(l) && row.Annotation? && HasRoom(l, row.link) && |l.columns| >= 2
    requires Centred(l, row.link.from, row.link.to, |row.link.message|, p)
    requires c <= Col(l, |l.columns| - 1) && forall i: nat | i < |l.columns| :: c != Col(l, i)
    requires !(p <= c < p + |row.link.message|)
    ensures c < |RowText(l, row)| && RowText(l, row)[c] == ' '
  {
    GapOfLink(row.link, |l.columns|);
    PlaceOfMessage(l, row.link.gap, |row.link.message|, p);
    BlankCell(l, row, (2 * l.half + l.columns[row.link.gap].gap - |row.link.message|) / 2, p, c);
  }

  /** The row of arrow k's message: between the arrow's own ends, and with markers if it is the marked one. */
  lemma {:induction false} MessageRowIs(d: Picture, k: nat, n: nat, f: nat, t: nat)
    requires Depicts(d) && k < |d.arrows| && Ends(d.l, d.arrows[k], f, t) && n == MessageRow(d.arrows, d.crashes, k)
    ensures n < |d.rows| && d.rows[n].Annotation? && BoxesFit(d.l) && HasRoom(d.l, d.rows[n].link)
    ensures d.rows[n].link.message == Marked(d.arrows, d.settings, k)
    ensures d.rows[n].link.from == f && d.rows[n].link.to == t
  {
    LinkEnds(d, k, f, t);
    var link, dead := RowsUnderMessage(d, k, 0, n);
  }

  // Loops

  lemma {:induction false} LoopGlyphs(link: Link, dead: set<int>, nodes: nat, i: nat)
    requires LinkFits(link, nodes) && link.from == link.to
    ensures Glyph(LoopTop(link, dead), i) ==
      if i in dead then ' ' else if i == link.from then (if i + 1 == nodes then '┤' else '├') else '│'
    ensures Glyph(LoopBottom(link, dead), i) ==
      if i == link.from then (if i + 1 == nodes then '▶' else '◀') else if i in dead then ' ' else '│'
  {
  }

  /** A loop leaves its node at the top, where a crash hides it, and returns below, even to a crashed node. */
  lemma {:induction false} LoopAtLifelines(d: Picture, k: nat, j: nat, n: nat, f: nat, i: nat)
    requires Depicts(d) && k < |d.arrows| && Ends(d.l, d.arrows[k], f, f) && i < |d.l.columns|
    requires 1 <= j <= 2 && n == MessageRow(d.arrows, d.crashes, k) + j
    ensures n < |d.rows| && Col(d.l, i) < |Shown(d, n)|
    ensures
      var gone, last := Gone(d.arrows, d.crashes, k, d.l.columns[i].name), f + 1 == |d.l.columns|;
      Shown(d, n)[Col(d.l, i)] ==
        if i == f && j == 2 then (if last then '▶' else '◀')
        else if gone then ' '
        else if i == f then (if last then '┤' else '├')
        else '│'
  {
    LinkEnds(d, k, f, f);
    var link, dead := RowsUnderMessage(d, k, j, n);
    FullRowLifeline(d.l, d.rows[n], i);
    LoopGlyphs(link, dead, |d.l.columns|, i);
  }

  /** The cells of a loop's segment: the stroke and its corner on one side of the node, and blanks. */
  lemma {:induction false} LoopSegmentCells(row: Row, gap: nat, half: nat, i: nat, o: nat)
    requires (row.LoopTop? || row.LoopBottom?) && half >= 2 && o < gap + 2 * half + 1 && o != gap + half
    ensures
      var s, here, right := LoopSegment(row, gap, half, i), i == row.link.from, row.link.goingRight;
      && |s| == gap + 2 * half + 1
      && s[o] == if here && right && o == gap + 2 * half then (if row.LoopTop? then '╮' else '╯')
                 else if here && right && o > gap + half then '─'
                 else if here && !right && o == gap then (if row.LoopTop? then '╭' else '╰')
                 else if here && !right && gap < o < gap + half then '─'
                 else ' '
  {
  }

  lemma {:induction false} LoopCellAt(l: Layout, row: Row, f: nat, c: nat)
    requires BoxesFit(l) && (row.LoopTop? || row.LoopBottom?) && f == row.link.from < |l.columns|
    requires c < Start(l, |l.columns|) && forall i: nat | i < |l.columns| :: c != Col(l, i)
    ensures c < |RowText(l, row)|
    ensures
      var d: int, right := c - Col(l, f), row.link.goingRight;
      RowText(l, row)[c] ==
        if right && d == l.half then (if row.LoopTop? then '╮' else '╯')
        else if !right && d == 0 - l.half then (if row.LoopTop? then '╭' else '╰')
        else if (right && 0 < d < l.half) || (!right && 0 - l.half < d < 0) then '─'
        else ' '
  {
    var i, o := Locate(l, |l.columns|, c);
    assert c != Col(l, i);
    if i < f {
      StartGrows(l, i, f);
    } else if f < i {
      StartGrows(l, f, i);
    }
    LoopSegmentCells(row, l.columns[i].gap, l.half, i, o);
    FullRowCell(l, row, i, o, c, LoopSegment(row, l.columns[i].gap, l.half, i)[o]);
  }

  /** Beside its node a loop turns at the edge of the node's box, to the right unless the node is the last one. */
  lemma {:induction false} LoopBesideLifeline(d: Picture, k: nat, j: nat, n: nat, f: nat, c: nat)
    requires Depicts(d) && k < |d.arrows| && Ends(d.l, d.arrows[k], f, f)
    requires 1 <= j <= 2 && n == MessageRow(d.arrows, d.crashes, k) + j
    requires c < Start(d.l, |d.l.columns|) && forall i: nat | i < |d.l.columns| :: c != Col(d.l, i)
    ensures n < |d.rows| && c < |Shown(d, n)|
    ensures
      var away: int, last := c - Col(d.l, f), f + 1 == |d.l.columns|;
      Shown(d, n)[c] ==
        if !last && away == d.l.half then (if j == 1 then '╮' else '╯')
        else if last && away == 0 - d.l.half then (if j == 1 then '╭' else '╰')
        else if (!last && 0 < away < d.l.half) || (last && 0 - d.l.half < away < 0) then '─'
        else ' '
  {
    LinkEnds(d, k, f, f);
    var link, dead := RowsUnderMessage(d, k, j, n);
    LoopCellAt(d.l, if j == 1 then LoopTop(link, dead) else LoopBottom(link, dead), f, c);
  }

  // Crashes

  /** The three rows of a crash: a skull in a box on the lifeline that ends, others as they were. */
  lemma {:induction false} CrashAtLifelines(d: Picture, k: nat, j: nat, n: nat, i: nat)
    requires Depicts(d) && k < |d.arrows| && d.arrows[k].at in d.crashes && i < |d.l.columns|
    requires j < 3 && n == RowsAbove(d.arrows, d.crashes, k) + j
    ensures n < |d.rows| && 2 <= Col(d.l, i) && Col(d.l, i) + 3 <= |Shown(d, n)|
    ensures Shown(d, n)[Col(d.l, i) - 2..Col(d.l, i) + 3] ==
      if Hit(d.arrows, d.crashes, k, d.l.columns[i].name)
      then (if j == 0 then "╭─┴─╮" else if j == 1 then "│ ☠ │" else "╰───╯")
      else if Gone(d.arrows, d.crashes, k, d.l.columns[i].name) then "     " else "  │  "
  {
    var row := CrashRow(d, k, j, n, i);
    CrashAroundLifeline(d.l, row, i, Col(d.l, i) - 2);
    assert CrashMark(row, i) == if i in row.struck then Shape(row.part) else if i in row.dead then "     " else "  │  ";
  }

  lemma {:induction false} CrashBlank(row: Row, gap: nat, half: nat, i: nat, o: nat)
    requires row.Crash? && half >= 2 && o < gap + 2 * half + 1 && !(gap + half - 2 <= o <= gap + half + 2)
    ensures |CrashSegment(row, gap, half, i)| == gap + 2 * half + 1 && CrashSegment(row, gap, half, i)[o] == ' '
  {
  }

  lemma {:induction false} CrashBlankAt(l: Layout, row: Row, i: nat, o: nat, c: nat)
    requires BoxesFit(l) && row.Crash? && i < |l.columns| && c == Start(l, i) + o && o < l.columns[i].gap + 2 * l.half + 1
    requires !(Col(l, i) - 2 <= c <= Col(l, i) + 2)
    ensures c < |RowText(l, row)| && RowText(l, row)[c] == ' '
  {
    CrashBlank(row, l.columns[i].gap, l.half, i, o);
    FullRowCell(l, row, i, o, c, ' ');
  }

  /** Nothing else is in these rows. */
  lemma {:induction false} BlankInCrashRow(d: Picture, k: nat, j: nat, n: nat, c: nat)
    requires Depicts(d) && k < |d.arrows| && d.arrows[k].at in d.crashes
    requires j < 3 && n == RowsAbove(d.arrows, d.crashes, k) + j
    requires c < Start(d.l, |d.l.columns|)
    requires forall i: nat | i < |d.l.columns| :: !(Col(d.l, i) - 2 <= c <= Col(d.l, i) + 2)
    ensures n < |d.rows| && c < |Shown(d, n)| && Shown(d, n)[c] == ' '
  {
    var i, o := Locate(d.l, |d.l.columns|, c);
    var row := CrashRow(d, k, j, n, i);
    CrashBlankAt(d.l, row, i, o, c);
  }

  // Boxes

  lemma {:induction false} BorderSegmentCells(row: Row, gap: nat, half: nat, o: nat)
    requires row.Border? && half >= 2 && o < gap + 2 * half + 1
    ensures
      var s := BorderSegment(row, gap, half);
      && |s| == gap + 2 * half + 1
      && s[o] == if o < gap then ' ' else if o == gap then row.left else if o == gap + half then row.middle
                 else if o == gap + 2 * half then row.right else '─'
  {
  }

  lemma {:induction false} NameSegmentCells(column: Column, half: nat, o: nat)
    requires |column.name| + 3 <= 2 * half && o < column.gap + 2 * half + 1
    ensures
      var s := NameSegment(column, half);
      var skip := column.gap + 2 + (2 * half - 3 - |column.name|) / 2;
      && |s| == column.gap + 2 * half + 1
      && (o == column.gap || o == column.gap + 2 * half ==> s[o] == '│')
      && (o != column.gap && o != column.gap + 2 * half && !(skip <= o < skip + |column.name|) ==> s[o] == ' ')
  {
  }

  /** At distance d from lifeline i, the upper edge of a box, the name in it, and its lower edge. */
  lemma {:induction false} BoxCells(arrows: seq<Arrow>, markerSize: nat, l: Layout, isTop: bool, i: nat, c: nat)
    requires l == LayoutOf(arrows, markerSize) && i < |l.columns| && Start(l, i) <= c < Start(l, i + 1)
    ensures
      var d: int := c - Col(l, i);
      var above := RowText(l, if isTop then Border('╭', '─', '╮') else Border('╭', '┴', '╮'));
      var below := RowText(l, if isTop then Border('╰', '┬', '╯') else Border('╰', '─', '╯'));
      && c < |above| && c < |below|
      && above[c] == (if d < 0 - l.half then ' ' else if d == 0 - l.half then '╭' else if d == l.half then '╮'
                      else if d == 0 && !isTop then '┴' else '─')
      && below[c] == (if d < 0 - l.half then ' ' else if d == 0 - l.half then '╰' else if d == l.half then '╯'
                      else if d == 0 && isTop then '┬' else '─')
  {
    var o := c - Start(l, i);
    LayoutFits(arrows, markerSize);
    var above := if isTop then Border('╭', '─', '╮') else Border('╭', '┴', '╮');
    var below := if isTop then Border('╰', '┬', '╯') else Border('╰', '─', '╯');
    BorderSegmentCells(above, l.columns[i].gap, l.half, o);
    BorderSegmentCells(below, l.columns[i].gap, l.half, o);
    FullRowCell(l, above, i, o, c, BorderSegment(above, l.columns[i].gap, l.half)[o]);
    FullRowCell(l, below, i, o, c, BorderSegment(below, l.columns[i].gap, l.half)[o]);
  }

  lemma {:induction false} NameRowCells(arrows: seq<Arrow>, markerSize: nat, l: Layout, i: nat, c: nat)
    requires l == LayoutOf(arrows, markerSize) && i < |l.columns| && Start(l, i) <= c < Start(l, i + 1)
    ensures
      var d: int, p: int := c - Col(l, i), Col(l, i) - l.half + 2 + (2 * l.half - 3 - |l.columns[i].name|) / 2;
      && c < |RowText(l, NameRow)|
      && (d == 0 - l.half || d == l.half ==> RowText(l, NameRow)[c] == '│')
      && (d != 0 - l.half && d != l.half && !(p <= c < p + |l.columns[i].name|) ==> RowText(l, NameRow)[c] == ' ')
  {
    var o := c - Start(l, i);
    LayoutFits(arrows, markerSize);
    NameSegmentCells(l.columns[i], l.half, o);
    FullRowCell(l, NameRow, i, o, c, NameSegment(l.columns[i], l.half)[o]);
  }

  /** The header is three such rows, and so is the end of the diagram. */
  lemma {:induction false} HeaderIsBoxes(arrows: seq<Arrow>, markerSize: nat, l: Layout)
    requires l == LayoutOf(arrows, markerSize)
    ensures HeaderOf(arrows, markerSize) ==
      Lines([RowText(l, Border('╭', '─', '╮')), RowText(l, NameRow)]) + RowText(l, Border('╰', '┬', '╯'))
  {
    TwoLines(RowText(l, Border('╭', '─', '╮')), RowText(l, NameRow));
    BoxesAre(l);
  }
}

/** The memo of drawn diagrams, one for each marked arrow, under one header. */
module SequenceDiagramMemo {
  import opened SequenceLayout
  import opened SequenceAlignment
  import opened DiagramDrawing

  // Marking an arrow moves nothing

  function BlankLink(link: Link): Link {
    link.(message := "", marked := false)
  }

  /** A row without what a mark may change. */
  function Blank(row: Row): Row {
    match row
    case Annotation(link, dead) => Annotation(BlankLink(link), dead)
    case LoopTop(link, dead) => LoopTop(BlankLink(link), dead)
    case LoopBottom(link, dead) => LoopBottom(BlankLink(link), dead)
    case Shaft(link, dead) => Shaft(BlankLink(link), dead)
    case other => other
  }

  predicate SameButMarks(a: seq<Link>, b: seq<Link>) {
    |a| == |b| && forall i | 0 <= i < |a| :: BlankLink(a[i]) == BlankLink(b[i])
  }

  predicate RowsSameButMarks(a: seq<Row>, b: seq<Row>) {
    |a| == |b| && forall j | 0 <= j < |a| :: Blank(a[j]) == Blank(b[j])
  }

  lemma {:induction false} SameDead(a: seq<Link>, b: seq<Link>, crashes: Struck, k: nat)
    requires SameButMarks(a, b) && k <= |a|
    ensures Dead(a, crashes, k) == Dead(b, crashes, k)
  {
    if k > 0 {
      SameDead(a, b, crashes, k - 1);
      assert BlankLink(a[k - 1]).at == BlankLink(b[k - 1]).at;
    }
  }

  lemma SameLinkRows(a: Link, b: Link, crashes: Struck, dead: set<int>)
    requires BlankLink(a) == BlankLink(b)
    ensures RowsSameButMarks(LinkRows(a, crashes, dead), LinkRows(b, crashes, dead))
  {
    assert BlankLink(a).at == BlankLink(b).at && BlankLink(a).from == BlankLink(b).from
           && BlankLink(a).to == BlankLink(b).to;
  }

  lemma SameAppend(a: seq<Row>, b: seq<Row>, c: seq<Row>, d: seq<Row>)
    requires RowsSameButMarks(a, b) && RowsSameButMarks(c, d)
    ensures RowsSameButMarks(a + c, b + d)
  {
  }

  lemma {:induction false} SameRows(a: seq<Link>, b: seq<Link>, crashes: Struck, k: nat)
    requires SameButMarks(a, b) && k <= |a|
    ensures RowsSameButMarks(Rows(a, crashes, k), Rows(b, crashes, k))
  {
    if k > 0 {
      SameRows(a, b, crashes, k - 1);
      SameDead(a, b, crashes, k);
      var dead := Dead(a, crashes, k);
      SameLinkRows(a[k - 1], b[k - 1], crashes, dead);
      SameAppend(Rows(a, crashes, k - 1), Rows(b, crashes, k - 1),
                 LinkRows(a[k - 1], crashes, dead), LinkRows(b[k - 1], crashes, dead));
    }
  }

  lemma BlankSegment(l: Layout, row: Row, i: nat)
    requires i < |l.columns| && !row.Annotation?
    ensures Segment(l, row, i) == Segment(l, Blank(row), i)
  {
  }

  lemma BlankRow(l: Layout, row: Row)
    requires !row.Annotation?
    ensures RowText(l, row) == RowText(l, Blank(row))
  {
    forall i: nat | i < |l.columns|
      ensures Segments(l, row)[i] == Segments(l, Blank(row))[i]
    {
      BlankSegment(l, row, i);
    }
    assert Segments(l, row) == Segments(l, Blank(row));
  }

  lemma MessageRowWidth(l: Layout, row: Row)
    requires row.Annotation? && HasRoom(l, row.link)
    ensures |RowText(l, row)| == Start(l, |l.columns|) - if row.link.gap == 0 then 0 else l.half
  {
    MessageRowFills(l, row);
    WidthOfParts(l, Segments(l, row), if row.link.gap == 0 then 0 else l.half, |l.columns|);
  }

  lemma SameShape(l: Layout, a: Row, b: Row)
    requires Sound(l, a) && Sound(l, b) && Blank(a) == Blank(b)
    ensures |RowText(l, a)| == |RowText(l, b)|
    ensures !a.Annotation? ==> RowText(l, a) == RowText(l, b)
  {
    if a.Annotation? {
      assert BlankLink(a.link).gap == BlankLink(b.link).gap;
      MessageRowWidth(l, a);
      MessageRowWidth(l, b);
    } else {
      BlankRow(l, a);
      BlankRow(l, b);
    }
  }

  lemma OnlyMarksDiffer(arrows: seq<Arrow>, a: Settings, b: Settings)
    requires a.markerSize == b.markerSize
    ensures SameButMarks(LinksOf(arrows, a), LinksOf(arrows, b))
  {
  }

  /**
   * Whichever arrow is marked, the diagram has the same rows, each as wide as before and,
   * but for the messages, with the same cells; so one header fits them all.
   */
  lemma MarkMovesNothing(arrows: seq<Arrow>, a: Settings, b: Settings, crashes: Struck, l: Layout,
                         rowsA: seq<Row>, rowsB: seq<Row>, j: nat)
    requires a.markerSize == b.markerSize && l == LayoutOf(arrows, a.markerSize)
    requires rowsA == Rows(LinksOf(arrows, a), crashes, |arrows|) && rowsB == Rows(LinksOf(arrows, b), crashes, |arrows|)
    requires j < |rowsA|
    ensures |rowsA| == |rowsB| && |RowText(l, rowsA[j])| == |RowText(l, rowsB[j])|
    ensures !rowsA[j].Annotation? ==> RowText(l, rowsA[j]) == RowText(l, rowsB[j])
  {
    OnlyMarksDiffer(arrows, a, b);
    SameRows(LinksOf(arrows, a), LinksOf(arrows, b), crashes, |arrows|);
    EveryLayoutFits(arrows, a);
    EveryLayoutFits(arrows, b);
    DrawnRowsAreSound(l, LinksOf(arrows, a), crashes, |arrows|, rowsA[j]);
    DrawnRowsAreSound(l, LinksOf(arrows, b), crashes, |arrows|, rowsB[j]);
    SameShape(l, rowsA[j], rowsB[j]);
  }

  // The memo

  const MARKER_SIZE := 3

  datatype NetworkEvent = NetworkEvent(from: string, to: string, recvAt: Time, message: string, dropped: bool)

  datatype Header = NoHeader | Header(text: string)

  function ArrowOf(event: NetworkEvent): Arrow {
    Arrow(event.from, event.to, event.recvAt, event.message, event.dropped)
  }

  function ArrowsOf(net: seq<NetworkEvent>): seq<Arrow> {
    seq(|net|, i requires 0 <= i < |net| => ArrowOf(net[i]))
  }

  method MakeArrows(net: seq<NetworkEvent>) returns (arrows: seq<Arrow>)
    ensures arrows == ArrowsOf(net)
  {
    arrows := [];
    for i := 0 to |net|
      invariant arrows == ArrowsOf(net)[..i]
    {
      arrows := arrows + [ArrowOf(net[i])];
    }
  }

  /** A fresh drawing with the arrow at position `at` marked. */
  function DrawnAt(net: seq<NetworkEvent>, crashes: Crashes, at: int): Diagram {
    DiagramOf(ArrowsOf(net), Settings(MARKER_SIZE, at, crashes))
  }

  method Draw(net: seq<NetworkEvent>, crashes: Crashes, at: int) returns (header: string, dia: string, line: nat)
    requires net != []
    ensures header == HeaderOf(ArrowsOf(net), MARKER_SIZE) && Diagram(dia, line) == DrawnAt(net, crashes, at)
  {
    var arrows := MakeArrows(net);
    header, dia, line := DrawDiagram(arrows, Settings(MARKER_SIZE, at, crashes));
  }

  class SequenceDiagrams {
    var inner: map<int, Diagram>
    var header: Header
    const net: seq<NetworkEvent>
    const crashes: Crashes

    ghost predicate Valid()
      reads this
    {
      && (forall at: int | at in inner :: inner[at] == DrawnAt(net, crashes, at))
      && (header.Header? ==> header.text == HeaderOf(ArrowsOf(net), MARKER_SIZE))
      && (header.NoHeader? ==> inner == map[])
    }

    constructor (net: seq<NetworkEvent>, crashes: Crashes)
      ensures Valid() && inner == map[] && header == NoHeader && this.net == net && this.crashes == crashes
    {
      inner, header, this.net, this.crashes := map[], NoHeader, net, crashes;
    }

    /** Whatever was drawn before, this is what a fresh drawing shows, and the header belongs to it. */
    method At(at: int) returns (dia: string, line: nat)
      requires Valid() && net != []
      modifies this
      ensures Valid()
      ensures Diagram(dia, line) == DrawnAt(net, crashes, at)
      ensures inner == old(inner)[at := Diagram(dia, line)]
      ensures header == Header(HeaderOf(ArrowsOf(net), MARKER_SIZE))
    {
      if at in inner {
        return inner[at].text, inner[at].line;
      }
      var top;
      top, dia, line := Draw(net, crashes, at);
      if header == NoHeader {
        header := Header(top);
      }
      inner := inner[at := Diagram(dia, line)];
    }
  }
}

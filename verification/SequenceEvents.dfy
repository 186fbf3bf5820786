/** The debugger's diagrams, in terms of the network events that they show. */
module SequenceEvents {
  import opened SequenceLayout
  import opened SequenceCells
  import opened SequenceDiagramMemo

  /**
   * Event k is drawn as an arrow between its own ends at the time of its receipt, and with three marker cells on each
   * side of its message; `SequenceCells` says cell by cell what that looks like.
   */
  lemma {:induction false} EventsAreArrows(net: seq<NetworkEvent>, crashes: Crashes, at: int, d: Picture, k: nat)
    requires d == PictureOf(ArrowsOf(net), Settings(3, at, crashes)) && k < |net|
    ensures Depicts(d) && d.crashes == crashes && |d.arrows| == |net|
    ensures Lines(AllShown(d)) <= DrawnAt(net, crashes, at).text
    ensures d.arrows[k].from == net[k].from && d.arrows[k].to == net[k].to && d.arrows[k].at == net[k].recvAt
    ensures d.arrows[k].message == net[k].message && d.arrows[k].dropped == net[k].dropped
  {
    EveryDiagramIsAPicture(ArrowsOf(net), Settings(3, at, crashes), d);
  }
}

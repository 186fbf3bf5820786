/** One broadcasting node, in any of its five delivery rounds. */
module BroadcastNode {
  type Name = string

  datatype Round = SimpleDeliv | RetryDeliv | RedunDeliv | AckDeliv | ClassicDeliv

  datatype Message = Broadcast(data: string) | Ack

  datatype OutEvent = Send(to: set<Name>, message: Message) | RenewTimer

  datatype Node = Node(log: string, neighbours: map<Name, bool>, round: Round)

  const PAYLOAD := "Hello world!"

  // ---- The constructors ----

  function NewNodeA(round: Round): Node {
    Node(PAYLOAD, map["B" := true, "C" := true], round)
  }

  function NewNode(round: Round, neighbour: Name): Node {
    var broadcast := round.RedunDeliv? || round.AckDeliv?;
    var neighbours := map[neighbour := broadcast];
    Node("", if round.ClassicDeliv? then neighbours["A" := broadcast][neighbour := broadcast] else neighbours, round)
  }

  // ---- Reactions ----

  /** The neighbours to which a firing timer sends. */
  function Targets(n: Node): set<Name> {
    set m | m in n.neighbours && n.neighbours[m] && n.log != ""
  }

  function Cleared(neighbours: map<Name, bool>, done: set<Name>): map<Name, bool> {
    map m | m in neighbours :: neighbours[m] && m !in done
  }

  function Fire(n: Node): Node {
    if n.round.SimpleDeliv? || n.round.ClassicDeliv? then n.(neighbours := Cleared(n.neighbours, Targets(n))) else n
  }

  function FireEvents(n: Node): seq<OutEvent> {
    [Send(Targets(n), Broadcast(n.log))] + if n.round.ClassicDeliv? then [] else [RenewTimer]
  }

  function Take(n: Node, from: Name, message: Message): Node {
    match message
    case Broadcast(data) => n.(log := data)
    case Ack => n.(neighbours := n.neighbours[from := false])
  }

  function TakeEvents(n: Node, from: Name, message: Message): seq<OutEvent> {
    match message
    case Broadcast(data) =>
      if n.round.AckDeliv? then [Send({from}, Ack)]
      else if n.round.ClassicDeliv? && n.log != data then [Send(n.neighbours.Keys, Broadcast(data))]
      else []
    case Ack => []
  }

  class NodeReactor {
    var log: string
    var neighbours: map<Name, bool>
    const round: Round

    ghost function Model(): Node
      reads this
    {
      Node(log, neighbours, round)
    }

    constructor A(round: Round)
      ensures Model() == NewNodeA(round)
    {
      log := PAYLOAD;
      neighbours := map["B" := true, "C" := true];
      this.round := round;
    }

    constructor Other(round: Round, neighbour: Name)
      ensures Model() == NewNode(round, neighbour)
    {
      var broadcast := match round
        case SimpleDeliv | RetryDeliv | ClassicDeliv => false
        case RedunDeliv | AckDeliv => true;
      var flags := map[neighbour := broadcast];
      if round == ClassicDeliv {
        flags := flags["A" := broadcast];
        flags := flags[neighbour := broadcast];
      }
      log := "";
      neighbours := flags;
      this.round := round;
    }

    /** An acknowledgement outside the AckDeliv round is a panic. */
    method Receive(from: Name, message: Message) returns (outs: seq<OutEvent>)
      requires message.Ack? ==> round.AckDeliv?
      modifies this
      ensures Model() == Take(old(Model()), from, message)
      ensures outs == TakeEvents(old(Model()), from, message)
    {
      outs := [];
      match message {
        case Broadcast(data) =>
          if round == AckDeliv {
            outs := outs + [Send({from}, Ack)];
          } else if round == ClassicDeliv && log != data {
            var to: set<Name> := {};
            var left := neighbours.Keys;
            while left != {}
              invariant to + left == neighbours.Keys
              decreases left
            {
              var neighbour :| neighbour in left;
              to := to + {neighbour};
              left := left - {neighbour};
            }
            outs := outs + [Send(to, Broadcast(data))];
          }
          log := data;
        case Ack =>
          neighbours := neighbours[from := false];
      }
    }

    /** The map is iterated in an arbitrary order while its flags are cleared. */
    method Timer() returns (outs: seq<OutEvent>)
      modifies this
      ensures Model() == Fire(old(Model()))
      ensures outs == FireEvents(old(Model()))
    {
      var to: set<Name> := {};
      var left := neighbours.Keys;
      ghost var before := Model();
      while left != {}
        invariant log == before.log && left <= before.neighbours.Keys
        invariant to == Targets(before) - left
        invariant neighbours ==
          if round.SimpleDeliv? || round.ClassicDeliv? then Cleared(before.neighbours, to) else before.neighbours
        decreases left
      {
        var neighbour :| neighbour in left;
        if neighbours[neighbour] && log != "" {
          to := to + {neighbour};
          if round == SimpleDeliv || round == ClassicDeliv {
            neighbours := neighbours[neighbour := false];
          }
        }
        left := left - {neighbour};
      }
      assert to == Targets(before);
      outs := [Send(to, Broadcast(log))];
      if round != ClassicDeliv {
        outs := outs + [RenewTimer];
      }
    }
  }
}

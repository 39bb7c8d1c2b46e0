/**
How planned moves are charged to the low-pressure topology: every destination keeps room for all the moves planned to
it, and leaves the topology exactly when they would bring it to the middle pressure.
*/
module BalanceBooking {
  import opened BalanceTopology

  /** A replica of a meta partition on its meta node. */
  datatype Replica = Replica(source: string, memSize: nat, setID: nat, zone: string)

  datatype Move = Move(from: Replica, to: Dest)

  /** Where a node is filed in the topology. */
  datatype Place = Place(zone: string, setID: nat, id: nat)

  function PlaceOf(d: Dest): Place { Place(d.zone, d.setID, d.id) }

  predicate NodeAt(topo: Topology, p: Place) {
    p.zone in topo && p.setID in topo[p.zone].sets && p.id in topo[p.zone].sets[p.setID].nodes
  }

  function TheNode(topo: Topology, p: Place): Node
    requires NodeAt(topo, p)
  {
    topo[p.zone].sets[p.setID].nodes[p.id]
  }

  // ---------------------------------------------------------------- one node

  /** UpdateLowPressureNodeTopo's arithmetic, in 64-bit unsigned integers. */
  function Charged(n: Node, memSize: nat): Node {
    var used := U64(n.used + U64(memSize * MEMORY_RATIO));
    var memUsed := U64(n.memUsed + U64(memSize * MEMORY_RATIO));
    n.(used := used, free := U64(n.total - used),
       ratio := if n.total > 0 then used as real / n.total as real else n.ratio,
       memUsed := memUsed, memFree := U64(n.memTotal - memUsed),
       memRatio := if n.memTotal > 0 then memUsed as real / n.memTotal as real else n.memRatio)
  }

  predicate Below(n: Node, mid: real) { n.ratio < mid && n.memRatio < mid }

  predicate Fits(n: Node, demand: nat) { n.used + demand <= n.total && n.memUsed + demand <= n.memTotal }

  /** The node with `demand` more bytes in use, in unbounded integers. */
  function Loaded(n: Node, demand: nat): Node
    requires Fits(n, demand)
  {
    var used := n.used + demand;
    var memUsed := n.memUsed + demand;
    n.(used := used, free := n.total - used,
       ratio := if n.total > 0 then used as real / n.total as real else n.ratio,
       memUsed := memUsed, memFree := n.memTotal - memUsed,
       memRatio := if n.memTotal > 0 then memUsed as real / n.memTotal as real else n.memRatio)
  }

  lemma LoadedNothing(n: Node, mid: real)
    requires Balanced(n, mid)
    ensures Fits(n, 0) && Loaded(n, 0) == n && Below(n, mid)
  {
  }

  /** An eligible node is charged twice the size in both accounts, without wrapping around. */
  lemma ChargedFits(n: Node, mid: real, leastSize: nat, memSize: nat)
    requires Balanced(n, mid) && memSize <= leastSize && MEMORY_RATIO * leastSize < UINT64
    requires n.free > MEMORY_RATIO * leastSize && n.memFree > MEMORY_RATIO * leastSize
    ensures Fits(n, MEMORY_RATIO * memSize) && Charged(n, memSize) == Loaded(n, MEMORY_RATIO * memSize)
    ensures Below(Charged(n, memSize), mid) ==> Balanced(Charged(n, memSize), mid)
    ensures var c := Charged(n, memSize);
            && c.used == n.used + 2 * memSize && c.memUsed == n.memUsed + 2 * memSize
            && c.free == n.free - 2 * memSize && c.memFree == n.memFree - 2 * memSize
            && c.id == n.id && c.addr == n.addr && c.total == n.total && c.memTotal == n.memTotal
  {
    var demand := MEMORY_RATIO * memSize;
    Unwrapped(demand);
    Unwrapped(n.used + demand);
    Unwrapped(n.total - (n.used + demand));
    Unwrapped(n.memUsed + demand);
    Unwrapped(n.memTotal - (n.memUsed + demand));
  }

  lemma Unwrapped(x: int)
    requires 0 <= x < UINT64
    ensures U64(x) == x
  {
  }

  lemma LoadedTwice(n: Node, demand: nat, more: nat)
    requires Fits(n, demand) && Fits(Loaded(n, demand), more)
    ensures Fits(n, demand + more) && Loaded(Loaded(n, demand), more) == Loaded(n, demand + more)
  {
  }

  // ---------------------------------------------------------------- the topology

  function WithNode(ns: NodeSet, n: Node): NodeSet { ns.(nodes := ns.nodes[n.id := n]) }

  function WithoutNode(ns: NodeSet, k: nat): NodeSet { NodeSet(ns.id, ns.number - 1, ns.nodes - {k}) }

  function WithSet(topo: Topology, z: string, s: nat, ns: NodeSet): Topology
    requires z in topo
  {
    topo[z := topo[z].(sets := topo[z].sets[s := ns])]
  }

  /** The node set of a charged node afterwards. */
  function ChargedSet(ns: NodeSet, k: nat, memSize: nat, mid: real): NodeSet
    requires k in ns.nodes
  {
    var n := Charged(ns.nodes[k], memSize);
    if Below(n, mid) then WithNode(ns, n) else WithoutNode(ns, n.id)
  }

  function ChargedTopology(topo: Topology, p: Place, memSize: nat, mid: real): Topology
    requires NodeAt(topo, p)
  {
    WithSet(topo, p.zone, p.setID, ChargedSet(topo[p.zone].sets[p.setID], p.id, memSize, mid))
  }

  /** Charging one node touches nothing else. */
  lemma ChargedElsewhere(topo: Topology, p: Place, memSize: nat, mid: real, q: Place)
    requires NodeAt(topo, p) && q != p && TheNode(topo, p).id == p.id
    ensures NodeAt(ChargedTopology(topo, p, memSize, mid), q) <==> NodeAt(topo, q)
    ensures NodeAt(topo, q) ==> TheNode(ChargedTopology(topo, p, memSize, mid), q) == TheNode(topo, q)
  {
  }

  lemma ChargedHere(topo: Topology, p: Place, memSize: nat, mid: real)
    requires NodeAt(topo, p) && TheNode(topo, p).id == p.id
    ensures NodeAt(ChargedTopology(topo, p, memSize, mid), p) <==> Below(Charged(TheNode(topo, p), memSize), mid)
    ensures NodeAt(ChargedTopology(topo, p, memSize, mid), p) ==>
              TheNode(ChargedTopology(topo, p, memSize, mid), p) == Charged(TheNode(topo, p), memSize)
  {
  }

  lemma WithNodeValid(z: string, s: nat, ns: NodeSet, n: Node, mid: real)
    requires SetValid(z, s, ns, mid) && n.id in ns.nodes && Balanced(n, mid)
    requires n.addr == ns.nodes[n.id].addr && n.setID == s && n.zone == z
    ensures SetValid(z, s, WithNode(ns, n), mid)
  {
    hide Balanced, AddressesDiffer;
    assert (ns.nodes[n.id := n]).Keys == ns.nodes.Keys;
    StillDiffer(ns.nodes, n);
  }

  lemma StillDiffer(nodes: map<nat, Node>, n: Node)
    requires AddressesDiffer(nodes) && n.id in nodes && n.addr == nodes[n.id].addr
    ensures AddressesDiffer(nodes[n.id := n])
  {
  }

  lemma WithoutNodeValid(z: string, s: nat, ns: NodeSet, k: nat, mid: real)
    requires SetValid(z, s, ns, mid) && k in ns.nodes
    ensures SetValid(z, s, WithoutNode(ns, k), mid)
  {
    hide Balanced;
    assert (ns.nodes - {k}).Keys == ns.nodes.Keys - {k};
  }

  lemma ChargedSetValid(z: string, s: nat, ns: NodeSet, k: nat, memSize: nat, mid: real)
    requires SetValid(z, s, ns, mid) && k in ns.nodes
    requires Below(Charged(ns.nodes[k], memSize), mid) ==> Balanced(Charged(ns.nodes[k], memSize), mid)
    ensures SetValid(z, s, ChargedSet(ns, k, memSize, mid), mid)
  {
    var n := Charged(ns.nodes[k], memSize);
    if Below(n, mid) {
      WithNodeValid(z, s, ns, n, mid);
    } else {
      WithoutNodeValid(z, s, ns, k, mid);
    }
  }

  lemma ChargedValid(topo: Topology, p: Place, memSize: nat, mid: real)
    requires TopologyValid(topo, mid) && NodeAt(topo, p)
    requires Below(Charged(TheNode(topo, p), memSize), mid) ==> Balanced(Charged(TheNode(topo, p), memSize), mid)
    ensures TopologyValid(ChargedTopology(topo, p, memSize, mid), mid)
  {
    hide Balanced, SetValid, ChargedSet, Charged;
    assert ZoneValid(p.zone, topo[p.zone], mid);
    ChargedSetValid(p.zone, p.setID, topo[p.zone].sets[p.setID], p.id, memSize, mid);
  }

  lemma FiledAt(topo: Topology, p: Place, mid: real)
    requires TopologyValid(topo, mid) && NodeAt(topo, p)
    ensures Balanced(TheNode(topo, p), mid) && TheNode(topo, p).id == p.id
    ensures PlaceOf(DestOf(TheNode(topo, p))) == p
  {
    assert ZoneValid(p.zone, topo[p.zone], mid);
  }

  // ---------------------------------------------------------------- the account

  /** The bytes the moves bring to a place. */
  function Demand(moves: seq<Move>, p: Place): nat {
    if moves == [] then 0
    else
      var m := moves[|moves| - 1];
      Demand(moves[..|moves| - 1], p) + if PlaceOf(m.to) == p then MEMORY_RATIO * m.from.memSize else 0
  }

  /** Some move goes to the place. */
  predicate Visited(moves: seq<Move>, p: Place) { exists i :: 0 <= i < |moves| && PlaceOf(moves[i].to) == p }

  /** The moves that go to the place carry the address. */
  predicate Addressed(moves: seq<Move>, p: Place, addr: string) {
    forall i :: 0 <= i < |moves| && PlaceOf(moves[i].to) == p ==> moves[i].to.addr == addr
  }

  /**
  `low` is what is left of `base` after booking `moves`, at one place: they carry the address of the node, which has
  room for all of them, and it is still listed, with exactly their demand added, if and only if that leaves it below the
  middle pressure.
  */
  ghost predicate AccountedAt(base: Topology, low: Topology, moves: seq<Move>, mid: real, p: Place) {
    if NodeAt(base, p) then
      && Addressed(moves, p, TheNode(base, p).addr)
      && Fits(TheNode(base, p), Demand(moves, p))
      && (NodeAt(low, p) <==> Below(Loaded(TheNode(base, p), Demand(moves, p)), mid))
      && (NodeAt(low, p) ==> TheNode(low, p) == Loaded(TheNode(base, p), Demand(moves, p)))
    else
      !NodeAt(low, p) && !Visited(moves, p)
  }

  ghost predicate Accounted(base: Topology, low: Topology, moves: seq<Move>, mid: real) {
    forall p :: AccountedAt(base, low, moves, mid, p)
  }

  lemma DemandSnoc(moves: seq<Move>, m: Move, p: Place)
    ensures Demand(moves + [m], p)
         == Demand(moves, p) + if PlaceOf(m.to) == p then MEMORY_RATIO * m.from.memSize else 0
  {
    assert (moves + [m])[..|moves|] == moves;
  }

  lemma {:induction false} DemandOfPrefix(moves: seq<Move>, more: seq<Move>, p: Place)
    ensures Demand(moves, p) <= Demand(moves + more, p)
  {
    if more == [] {
      assert moves + more == moves;
    } else {
      var rest, m := more[..|more| - 1], more[|more| - 1];
      DemandOfPrefix(moves, rest, p);
      DemandSnoc(moves + rest, m, p);
      assert moves + more == moves + rest + [m];
    }
  }

  lemma NothingBooked(base: Topology, mid: real)
    requires TopologyValid(base, mid)
    ensures Accounted(base, base, [], mid)
  {
    forall p ensures AccountedAt(base, base, [], mid, p) {
      if NodeAt(base, p) {
        FiledAt(base, p, mid);
        LoadedNothing(TheNode(base, p), mid);
      }
    }
  }

  /** Booking one more move at a listed node with room keeps the account. */
  lemma BookedAt(base: Topology, low: Topology, moves: seq<Move>, mid: real, m: Move, p: Place)
    requires AccountedAt(base, low, moves, mid, p)
    requires NodeAt(low, PlaceOf(m.to)) && TheNode(low, PlaceOf(m.to)).id == m.to.id
    requires TheNode(low, PlaceOf(m.to)).addr == m.to.addr
    requires Fits(TheNode(low, PlaceOf(m.to)), MEMORY_RATIO * m.from.memSize)
    requires Charged(TheNode(low, PlaceOf(m.to)), m.from.memSize)
          == Loaded(TheNode(low, PlaceOf(m.to)), MEMORY_RATIO * m.from.memSize)
    ensures AccountedAt(base, ChargedTopology(low, PlaceOf(m.to), m.from.memSize, mid), moves + [m], mid, p)
  {
    DemandSnoc(moves, m, p);
    if p == PlaceOf(m.to) {
      ChargedHere(low, p, m.from.memSize, mid);
      LoadedTwice(TheNode(base, p), Demand(moves, p), MEMORY_RATIO * m.from.memSize);
    } else {
      ChargedElsewhere(low, PlaceOf(m.to), m.from.memSize, mid, p);
    }
  }

  /** Every node of the base topology has room, in both accounts, for all the moves planned to it together. */
  lemma PlanFits(base: Topology, low: Topology, planned: seq<Move>, unused: seq<Move>, mid: real, p: Place)
    requires Accounted(base, low, planned + unused, mid) && NodeAt(base, p)
    ensures Fits(TheNode(base, p), Demand(planned, p))
  {
    assert AccountedAt(base, low, planned + unused, mid, p);
    DemandOfPrefix(planned, unused, p);
  }

  /** The destination is a node of the topology, by its place and by its address. */
  predicate IsNode(topo: Topology, d: Dest) { NodeAt(topo, PlaceOf(d)) && TheNode(topo, PlaceOf(d)).addr == d.addr }

  /** Every move goes to the address of the node of the base topology that was charged for it. */
  lemma MovesToBase(base: Topology, low: Topology, moves: seq<Move>, mid: real, i: nat)
    requires Accounted(base, low, moves, mid) && i < |moves|
    ensures IsNode(base, moves[i].to)
  {
    var p := PlaceOf(moves[i].to);
    assert AccountedAt(base, low, moves, mid, p) && Visited(moves, p);
  }

  predicate AtNodes(topo: Topology, moves: seq<Move>) { forall m :: m in moves ==> IsNode(topo, m.to) }

  /** The same for the last moves that were booked. */
  lemma LastAtNodes(base: Topology, low: Topology, before: seq<Move>, moves: seq<Move>, mid: real)
    requires Accounted(base, low, before + moves, mid)
    ensures AtNodes(base, moves)
  {
    forall m | m in moves ensures IsNode(base, m.to) {
      var i :| 0 <= i < |moves| && moves[i] == m;
      MovesToBase(base, low, before + moves, mid, |before| + i);
    }
  }

  /** The bytes the moves would bring to a place if every replica were charged its own size. */
  function TrueDemand(moves: seq<Move>, p: Place, size: Move -> nat): nat {
    if moves == [] then 0
    else
      var m := moves[|moves| - 1];
      TrueDemand(moves[..|moves| - 1], p, size) + if PlaceOf(m.to) == p then MEMORY_RATIO * size(m) else 0
  }

  /** What is missing for the replicas that are recorded with no size, which are those not on overloaded nodes. */
  function Uncharged(moves: seq<Move>, p: Place, size: Move -> nat): nat {
    if moves == [] then 0
    else
      var m := moves[|moves| - 1];
      Uncharged(moves[..|moves| - 1], p, size)
      + if PlaceOf(m.to) == p && m.from.memSize == 0 then MEMORY_RATIO * size(m) else 0
  }

  /** The room that is kept at a node falls short by exactly what is not charged. */
  lemma {:induction false} DemandShortfall(moves: seq<Move>, p: Place, size: Move -> nat)
    requires forall m :: m in moves && m.from.memSize > 0 ==> size(m) == m.from.memSize
    ensures TrueDemand(moves, p, size) == Demand(moves, p) + Uncharged(moves, p, size)
  {
    if moves != [] {
      DemandShortfall(moves[..|moves| - 1], p, size);
      assert moves[|moves| - 1] in moves;
    }
  }
}

/**
The low-pressure topology of the meta-partition balancer, and the search for migration destinations in it.
*/
module BalanceTopology {

  const UINT64 := 0x1_0000_0000_0000_0000
  const RESERVE_MEMORY := 3 * 1024 * 1024 * 1024
  const MEMORY_RATIO := 2

  function U64(x: int): nat { x % UINT64 }

  /** A meta node with its two memory accounts: the meta node process and the whole machine. */
  datatype Node = Node(
    id: nat, addr: string, setID: nat, zone: string,
    total: nat, used: nat, free: nat, ratio: real,
    memTotal: nat, memUsed: nat, memFree: nat, memRatio: real)

  datatype NodeSet = NodeSet(id: nat, number: int, nodes: map<nat, Node>)

  datatype Zone = Zone(name: string, sets: map<nat, NodeSet>)

  type Topology = map<string, Zone>

  datatype Dest = Dest(addr: string, id: nat, setID: nat, zone: string)

  /** What a search asks for. */
  datatype Request = Request(excludes: seq<string>, num: nat, leastSize: nat)

  // ---------------------------------------------------------------- validity

  /** Both accounts add up, and the node is below the middle pressure. */
  ghost predicate Balanced(n: Node, mid: real) {
    && n.used <= n.total < UINT64 && n.free == n.total - n.used
    && n.memUsed <= n.memTotal < UINT64 && n.memFree == n.memTotal - n.memUsed
    && n.ratio < mid && n.memRatio < mid
    && (n.total > 0 ==> n.ratio == n.used as real / n.total as real)
    && (n.memTotal > 0 ==> n.memRatio == n.memUsed as real / n.memTotal as real)
  }

  ghost predicate AddressesDiffer(nodes: map<nat, Node>) {
    forall j, k :: j in nodes && k in nodes && j != k ==> nodes[j].addr != nodes[k].addr
  }

  ghost predicate SetValid(z: string, s: nat, ns: NodeSet, mid: real) {
    && ns.id == s && ns.number == |ns.nodes| && AddressesDiffer(ns.nodes)
    && forall k :: k in ns.nodes ==>
         && ns.nodes[k].id == k && ns.nodes[k].setID == s && ns.nodes[k].zone == z && Balanced(ns.nodes[k], mid)
  }

  ghost predicate ZoneValid(z: string, zone: Zone, mid: real) {
    zone.name == z && forall s :: s in zone.sets ==> SetValid(z, s, zone.sets[s], mid)
  }

  ghost predicate TopologyValid(topo: Topology, mid: real) {
    forall z :: z in topo ==> ZoneValid(z, topo[z], mid)
  }

  predicate HasSet(topo: Topology, z: string, s: nat) { z in topo && s in topo[z].sets }

  // ---------------------------------------------------------------- eligibility

  /**
  A node that may take a replica: not excluded, with more than the reserve and twice the size free in both accounts.
  */
  predicate Eligible(n: Node, req: Request) {
    && n.addr !in req.excludes
    && n.free > RESERVE_MEMORY && n.memFree > RESERVE_MEMORY
    && n.free > U64(MEMORY_RATIO * req.leastSize) && n.memFree > U64(MEMORY_RATIO * req.leastSize)
  }

  /** The same in numbers: the smaller account has more than 3 GiB free, and more than the size doubled in 64 bits. */
  ghost predicate Roomy(n: Node, req: Request) {
    var free := if n.free < n.memFree then n.free else n.memFree;
    n.addr !in req.excludes && free > 3221225472 && free > (2 * req.leastSize) % 18446744073709551616
  }

  lemma EligibleIsRoomy(ns: NodeSet, req: Request)
    ensures EligibleIn(ns, req) == set k | k in ns.nodes && Roomy(ns.nodes[k], req)
  {
  }

  function EligibleIn(ns: NodeSet, req: Request): set<nat> {
    set k | k in ns.nodes && Eligible(ns.nodes[k], req)
  }

  function DestOf(n: Node): Dest { Dest(n.addr, n.id, n.setID, n.zone) }

  ghost predicate Enough(topo: Topology, z: string, s: nat, req: Request) {
    HasSet(topo, z, s) && |EligibleIn(topo[z].sets[s], req)| >= req.num
  }

  ghost predicate EnoughInZone(topo: Topology, z: string, s: nat, req: Request) {
    exists t :: t != s && Enough(topo, z, t, req)
  }

  ghost predicate EnoughElsewhere(topo: Topology, z: string, req: Request) {
    exists y, t :: y != z && Enough(topo, y, t, req)
  }

  /** `dests` are different nodes of the node set, all of them in `ids`. */
  ghost predicate PickedFrom(ns: NodeSet, ids: set<nat>, dests: seq<Dest>) {
    && ids <= ns.nodes.Keys
    && (forall i :: 0 <= i < |dests| ==> dests[i].id in ids && dests[i] == DestOf(ns.nodes[dests[i].id]))
    && (forall i, j :: 0 <= i < j < |dests| ==> dests[i].id != dests[j].id)
  }

  /** `dests` are as many different eligible nodes of one node set as were asked for. */
  ghost predicate Chosen(topo: Topology, z: string, s: nat, req: Request, dests: seq<Dest>) {
    && HasSet(topo, z, s) && |dests| == req.num
    && PickedFrom(topo[z].sets[s], EligibleIn(topo[z].sets[s], req), dests)
  }

  lemma PickedOneMore(ns: NodeSet, ids: set<nat>, dests: seq<Dest>, k: nat)
    requires PickedFrom(ns, ids, dests) && k in ns.nodes && k !in ids && ns.nodes[k].id == k
    ensures PickedFrom(ns, ids + {k}, dests + [DestOf(ns.nodes[k])])
  {
    var more := dests + [DestOf(ns.nodes[k])];
    assert forall i :: 0 <= i < |dests| ==> more[i] == dests[i];
  }

  lemma PickedFromMore(ns: NodeSet, ids: set<nat>, more: set<nat>, dests: seq<Dest>)
    requires PickedFrom(ns, ids, dests) && ids <= more <= ns.nodes.Keys
    ensures PickedFrom(ns, more, dests)
  {
  }

  /** The loop of GetMigrateDestAddr over one node set, in no particular order. */
  method PickNodes(ns: NodeSet, req: Request) returns (find: bool, dests: seq<Dest>)
    requires req.num > 0 && forall k :: k in ns.nodes ==> ns.nodes[k].id == k
    ensures find <==> |EligibleIn(ns, req)| >= req.num
    ensures find ==> |dests| == req.num && PickedFrom(ns, EligibleIn(ns, req), dests)
    ensures find ==> forall i :: 0 <= i < |dests| ==> dests[i].id in ns.nodes && Roomy(ns.nodes[dests[i].id], req)
    ensures !find ==> |set k | k in ns.nodes && Roomy(ns.nodes[k], req)| < req.num
  {
    EligibleIsRoomy(ns, req);
    find, dests := false, [];
    var todo := ns.nodes.Keys;
    ghost var seen := {};
    ghost var eligible := EligibleIn(ns, req);
    while todo != {}
      invariant todo <= ns.nodes.Keys && !find && |dests| == |seen| < req.num
      invariant seen <= eligible <= seen + todo && seen !! todo
      invariant PickedFrom(ns, seen, dests)
      decreases todo
    {
      var k :| k in todo;
      todo := todo - {k};
      if !Eligible(ns.nodes[k], req) {
        continue;
      }
      PickedOneMore(ns, seen, dests, k);
      seen := seen + {k};
      dests := dests + [DestOf(ns.nodes[k])];
      if |dests| >= req.num {
        find := true;
        break;
      }
    }
    if find {
      AtLeast(seen, eligible);
      PickedFromMore(ns, seen, eligible, dests);
    } else {
      AtLeast(eligible, seen);
    }
  }

  /** GetMigrateDestAddr: finds destinations in one node set exactly when it has enough eligible nodes. */
  method GetMigrateDestAddr(topo: Topology, z: string, s: nat, req: Request, ghost mid: real)
    returns (find: bool, dests: seq<Dest>)
    requires TopologyValid(topo, mid) && req.num > 0
    ensures find <==> Enough(topo, z, s, req)
    ensures find ==> Chosen(topo, z, s, req, dests)
  {
    if z !in topo {
      return false, [];
    }
    if s !in topo[z].sets {
      return false, [];
    }
    var ns := topo[z].sets[s];
    assert SetValid(z, s, ns, mid);
    FewerEligible(ns, req);
    if ns.number < req.num {
      return false, [];
    }
    find, dests := PickNodes(ns, req);
  }

  /** GetMigrateAddrExcludeNodeSet: tries every other node set of the zone. */
  method GetMigrateAddrExcludeNodeSet(topo: Topology, z: string, s: nat, req: Request, ghost mid: real)
    returns (find: bool, dests: seq<Dest>, ghost from: nat)
    requires TopologyValid(topo, mid) && req.num > 0
    ensures find <==> EnoughInZone(topo, z, s, req)
    ensures find ==> from != s && Chosen(topo, z, from, req, dests)
  {
    find, dests, from := false, [], s;
    if z !in topo {
      return;
    }
    var todo := topo[z].sets.Keys;
    while todo != {}
      invariant todo <= topo[z].sets.Keys && !find
      invariant forall t :: t in topo[z].sets && t !in todo && t != s ==> !Enough(topo, z, t, req)
      decreases todo
    {
      var t :| t in todo;
      todo := todo - {t};
      assert SetValid(z, t, topo[z].sets[t], mid);
      if topo[z].sets[t].id == s {
        continue;
      }
      find, dests := GetMigrateDestAddr(topo, z, topo[z].sets[t].id, req, mid);
      if find {
        from := t;
        return;
      }
    }
  }

  /** GetMigrateAddrExcludeZone: tries every node set of every other zone. */
  method GetMigrateAddrExcludeZone(topo: Topology, z: string, req: Request, ghost mid: real)
    returns (find: bool, dests: seq<Dest>, ghost zone: string, ghost from: nat)
    requires TopologyValid(topo, mid) && req.num > 0
    ensures find <==> EnoughElsewhere(topo, z, req)
    ensures find ==> zone != z && Chosen(topo, zone, from, req, dests)
  {
    find, dests, zone, from := false, [], z, 0;
    var todo := topo.Keys;
    while todo != {}
      invariant todo <= topo.Keys && !find
      invariant forall y, t :: y in topo && y !in todo && y != z ==> !Enough(topo, y, t, req)
      decreases todo
    {
      var y :| y in todo;
      todo := todo - {y};
      assert ZoneValid(y, topo[y], mid);
      if topo[y].name == z {
        continue;
      }
      find, dests, from := SearchZone(topo, topo[y].name, req, mid);
      if find {
        zone := y;
        return;
      }
    }
  }

  method SearchZone(topo: Topology, y: string, req: Request, ghost mid: real)
    returns (find: bool, dests: seq<Dest>, ghost from: nat)
    requires TopologyValid(topo, mid) && req.num > 0 && y in topo
    ensures find <==> exists t :: Enough(topo, y, t, req)
    ensures find ==> Chosen(topo, y, from, req, dests)
  {
    find, dests, from := false, [], 0;
    var todo := topo[y].sets.Keys;
    while todo != {}
      invariant todo <= topo[y].sets.Keys && !find
      invariant forall t :: t in topo[y].sets && t !in todo ==> !Enough(topo, y, t, req)
      decreases todo
    {
      var t :| t in todo;
      todo := todo - {t};
      assert SetValid(y, t, topo[y].sets[t], mid);
      find, dests := GetMigrateDestAddr(topo, y, topo[y].sets[t].id, req, mid);
      if find {
        from := t;
        return;
      }
    }
  }

  lemma FewerEligible(ns: NodeSet, req: Request)
    ensures |EligibleIn(ns, req)| <= |ns.nodes|
  {
    AtLeast(EligibleIn(ns, req), ns.nodes.Keys);
  }

  lemma {:induction false} AtLeast(a: set<nat>, b: set<nat>)
    requires a <= b
    ensures |a| <= |b|
  {
    assert a + (b - a) == b;
  }
}

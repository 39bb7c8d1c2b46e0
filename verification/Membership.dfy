/**
The raft members of a data partition: who may be removed, and how the three lists that name the members stay one.
*/
module Membership {
  import opened Bags

  datatype Peer = Peer(id: nat, addr: string)

  // ---------------------------------------------------------------- may a member be removed

  function DownWithout(down: seq<nat>, id: nat): seq<nat> {
    if down == [] then []
    else
      var rest := DownWithout(down[..|down| - 1], id);
      if down[|down| - 1] == id then rest else rest + [down[|down| - 1]]
  }

  /** The other members that are down, each as often as it is named. */
  lemma {:induction false} DownWithoutIs(down: seq<nat>, id: nat, x: nat)
    ensures multiset(DownWithout(down, id))[x] == if x == id then 0 else multiset(down)[x]
  {
    if down != [] {
      var init, last := down[..|down| - 1], down[|down| - 1];
      DownWithoutIs(init, id, x);
      assert down == init + [last];
    }
  }

  predicate Present(peers: seq<Peer>, id: nat) { exists i :: 0 <= i < |peers| && peers[i].id == id }

  /**
  CanRemoveRaftMember: a present peer is removed without force exactly when the members left that are not down are a
  majority of the group without it, whatever the size of the group.
  */
  method CanRemoveRaftMember(peers: seq<Peer>, down: seq<nat>, peer: Peer, force: bool) returns (ok: bool)
    ensures ok <==> || !Present(peers, peer.id) || force
                    || 2 * (|peers| - 1 - |DownWithout(down, peer.id)|) > |peers| - 1
  {
    var found := false;
    for i := 0 to |peers|
      invariant found <==> exists k :: 0 <= k < i && peers[k].id == peer.id
    {
      if peers[i].id == peer.id {
        found := true;
        break;
      }
    }
    if !found {
      return true;
    }
    var others := [];
    for i := 0 to |down|
      invariant others == DownWithout(down[..i], peer.id)
    {
      assert down[..i + 1][..i] == down[..i];
      if down[i] == peer.id {
        continue;
      }
      others := others + [down[i]];
    }
    assert down[..|down|] == down;
    if force {
      return true;
    }
    var sumReplicas := |peers|;
    if sumReplicas % 2 == 1 {
      return sumReplicas - |others| > sumReplicas / 2 + 1;
    } else {
      return sumReplicas - |others| >= sumReplicas / 2 + 1;
    }
  }

  // ---------------------------------------------------------------- the lists

  function Addrs(peers: seq<Peer>): multiset<string> {
    if peers == [] then multiset{} else Addrs(peers[..|peers| - 1]) + multiset{peers[|peers| - 1].addr}
  }

  ghost predicate IdsDiffer(peers: seq<Peer>) {
    forall i, j :: 0 <= i < j < |peers| ==> peers[i].id != peers[j].id
  }

  lemma {:induction false} AddrsAppend(a: seq<Peer>, b: seq<Peer>)
    ensures Addrs(a + b) == Addrs(a) + Addrs(b)
  {
    if b == [] {
      assert a + b == a;
    } else {
      var init := b[..|b| - 1];
      AddrsAppend(a, init);
      assert (a + b)[..|a + b| - 1] == a + init && (a + b)[|a + b| - 1] == b[|b| - 1];
      Associative(Addrs(a), Addrs(init), multiset{b[|b| - 1].addr});
    }
  }

  lemma Cancelled(a: multiset<string>, b: multiset<string>, x: string)
    requires a + multiset{x} == b + multiset{x}
    ensures a == b
  {
    assert a == (a + multiset{x}) - multiset{x} && b == (b + multiset{x}) - multiset{x};
  }

  lemma AddrsOne(p: Peer)
    ensures Addrs([p]) == multiset{p.addr}
  {
    assert [p][..0] == [];
  }

  lemma AddrsWithout(peers: seq<Peer>, i: nat)
    requires i < |peers|
    ensures Addrs(peers) == Addrs(peers[..i] + peers[i + 1..]) + multiset{peers[i].addr}
  {
    hide Addrs;
    assert peers == peers[..i] + [peers[i]] + peers[i + 1..];
    AddrsAppend(peers[..i] + [peers[i]], peers[i + 1..]);
    AddrsAppend(peers[..i], [peers[i]]);
    AddrsAppend(peers[..i], peers[i + 1..]);
    AddrsOne(peers[i]);
  }

  lemma HostsWithout(hosts: seq<string>, h: nat)
    requires h < |hosts|
    ensures multiset(hosts) == multiset(hosts[..h] + hosts[h + 1..]) + multiset{hosts[h]}
  {
    assert hosts == hosts[..h] + [hosts[h]] + hosts[h + 1..];
  }

  /** The hosts are the addresses of the peers, with the same multiplicities. */
  ghost predicate Agree(peers: seq<Peer>, hosts: seq<string>) { multiset(hosts) == Addrs(peers) }

  /** Taking a peer and an address out keeps the agreement exactly when the address is the peer's own. */
  lemma RemovalAgrees(peers: seq<Peer>, hosts: seq<string>, i: nat, addr: string, hosts': seq<string>)
    requires Agree(peers, hosts) && i < |peers|
    requires if addr in hosts then multiset(hosts) == multiset(hosts') + multiset{addr} else hosts' == hosts
    ensures Agree(peers[..i] + peers[i + 1..], hosts') <==> addr == peers[i].addr
  {
    hide Addrs;
    AddrsWithout(peers, i);
    var rest, own := Addrs(peers[..i] + peers[i + 1..]), peers[i].addr;
    assert multiset(hosts)[own] == rest[own] + 1;
    if addr != own {
      assert multiset(hosts')[own] == multiset(hosts)[own];
    } else {
      assert own in multiset(hosts);
      Cancelled(multiset(hosts'), rest, own);
    }
  }

  // ---------------------------------------------------------------- the peer to remove

  predicate AtAddr(peers: seq<Peer>, addr: string) { exists i :: 0 <= i < |peers| && peers[i].addr == addr }

  /** Whoever is at the address of the request has its id. */
  predicate OwnId(peers: seq<Peer>, req: Peer) {
    forall i :: 0 <= i < |peers| && peers[i].addr == req.addr ==> peers[i].id == req.id
  }

  function IdsOf(peers: seq<Peer>): set<nat> { set p | p in peers :: p.id }

  lemma AddrsHold(peers: seq<Peer>, hosts: seq<string>, addr: string)
    requires Agree(peers, hosts)
    ensures addr in hosts <==> AtAddr(peers, addr)
  {
    AddrsIn(peers, addr);
    assert addr in hosts <==> addr in multiset(hosts);
  }

  lemma {:induction false} AddrsIn(peers: seq<Peer>, addr: string)
    ensures addr in Addrs(peers) <==> AtAddr(peers, addr)
  {
    if peers != [] {
      var rest := peers[..|peers| - 1];
      AddrsIn(rest, addr);
      if AtAddr(rest, addr) {
        var i :| 0 <= i < |rest| && rest[i].addr == addr;
        assert peers[i].addr == addr;
      }
      if AtAddr(peers, addr) && !AtAddr(rest, addr) {
        var i :| 0 <= i < |peers| && peers[i].addr == addr;
        assert i < |rest| ==> rest[i].addr == addr;
      }
    }
  }

  /**
  The correction in handlePacketToRemoveDataPartitionRaftMember: the id is taken from a local peer at the address of the
  request.
  */
  method CorrectPeer(peers: seq<Peer>, req: Peer) returns (found: bool, peer: Peer)
    ensures peer.addr == req.addr
    ensures found <==> AtAddr(peers, req.addr)
    ensures found ==> Peer(peer.id, req.addr) in peers
    ensures !found ==> peer == req
    ensures peer.id == req.id <==> OwnId(peers, req)
  {
    found, peer := false, req;
    for i := 0 to |peers|
      invariant peer.addr == req.addr
      invariant peer.id == req.id <==> forall k :: 0 <= k < i && peers[k].addr == req.addr ==> peers[k].id == req.id
      invariant found <==> exists k :: 0 <= k < i && peers[k].addr == req.addr
      invariant found ==> Peer(peer.id, req.addr) in peers[..i]
      invariant !found ==> peer == req
    {
      if peers[i].addr != req.addr {
        assert peers[..i + 1] == peers[..i] + [peers[i]];
        continue;
      }
      found := true;
      assert peers[i] in peers[..i + 1] && peers[i] == Peer(peers[i].id, req.addr);
      if peers[i].id != req.id {
        peer := peer.(id := peers[i].id);
      } else {
        assert peers[..i + 1] == peers[..i] + [peers[i]];
      }
    }
    assert peers[..|peers|] == peers;
  }

  class Members {
    var peers: seq<Peer>
    var hosts: seq<string>
    var replicas: seq<string>

    /** The ids in raft's own configuration of the group. */
    var raft: set<nat>

    ghost predicate Valid()
      reads this
    {
      IdsDiffer(peers) && Agree(peers, hosts) && replicas == hosts
    }

    /** Raft and the partition name the same members. */
    ghost predicate RaftMatches()
      reads this
    {
      raft == IdsOf(peers)
    }

    constructor (peers: seq<Peer>, hosts: seq<string>)
      requires IdsDiffer(peers) && Agree(peers, hosts)
      ensures Valid() && RaftMatches() && this.peers == peers && this.hosts == hosts
    {
      this.peers, this.hosts, this.replicas, this.raft := peers, hosts, hosts, IdsOf(peers);
    }

    /** addRaftNode. */
    method AddRaftNode(peer: Peer)
      requires Valid()
      modifies `peers, `hosts, `replicas
      ensures Valid()
      ensures Present(old(peers), peer.id) ==> peers == old(peers) && hosts == old(hosts)
      ensures !Present(old(peers), peer.id) ==> peers == old(peers) + [peer] && hosts == old(hosts) + [peer.addr]
    {
      for i := 0 to |peers|
        invariant peers == old(peers) && hosts == old(hosts) && replicas == old(replicas)
        invariant forall k :: 0 <= k < i ==> peers[k].id != peer.id
      {
        if peers[i].id == peer.id {
          return;
        }
      }
      AddrsAppend(peers, [peer]);
      AddrsOne(peer);
      peers := peers + [peer];
      hosts := hosts + [peer.addr];
      replicas := hosts;
    }

    /** A request to add a member, as raft and the partition apply it. Id zero changes nothing. */
    method HandleAdd(peer: Peer)
      requires Valid()
      modifies this
      ensures Valid() && (old(RaftMatches()) ==> RaftMatches())
      ensures peer.id != 0 ==> Present(peers, peer.id) && peer.id in raft
      ensures peer.id == 0 ==> peers == old(peers) && hosts == old(hosts) && raft == old(raft)
    {
      if peer.id != 0 {
        raft := raft + {peer.id};
        PresentIs(peers, peer.id);
        IdsMore(peers, peer);
        AddRaftNode(peer);
        PresentIs(peers, peer.id);
      }
    }

    /**
    removeRaftNode: the lists still agree afterwards if and only if the request carries the address that the peer with
    its id has.
    */
    method RemoveRaftNode(peer: Peer)
      requires Valid()
      modifies `peers, `hosts, `replicas
      ensures IdsDiffer(peers) && replicas == hosts && IdsOf(peers) == IdsOf(old(peers)) - {peer.id}
      ensures !Present(old(peers), peer.id) ==> peers == old(peers) && hosts == old(hosts)
      ensures Present(old(peers), peer.id) ==>
                && |peers| == |old(peers)| - 1
                && (Valid() <==> peer in old(peers))
                && (peer in old(peers) ==> multiset(hosts) + multiset{peer.addr} == old(multiset(hosts)))
    {
      hide IdsDiffer, IdsOf, Agree, Present;
      PresentIs(peers, peer.id);
      var peerIndex := PeerIndex(peer.id);
      if peerIndex == |peers| {
        return;
      }
      var hostIndex := HostIndex(peer.addr);
      ghost var before := hosts;
      if hostIndex < |hosts| {
        hosts := hosts[..hostIndex] + hosts[hostIndex + 1..];
      }
      Removed(peers, before, peerIndex, hostIndex, peer);
      peers := peers[..peerIndex] + peers[peerIndex + 1..];
      replicas := hosts;
    }

    /** The place of the peer with the id. */
    method PeerIndex(id: nat) returns (i: nat)
      ensures i <= |peers| && (i < |peers| ==> peers[i].id == id) && (i < |peers| <==> Present(peers, id))
    {
      i := 0;
      while i < |peers| && peers[i].id != id
        invariant i <= |peers| && forall k :: 0 <= k < i ==> peers[k].id != id
      {
        i := i + 1;
      }
    }

    /** The first place of the address. */
    method HostIndex(addr: string) returns (h: nat)
      ensures h <= |hosts| && (h < |hosts| ==> hosts[h] == addr) && (h < |hosts| <==> addr in hosts)
    {
      h := 0;
      while h < |hosts| && hosts[h] != addr
        invariant h <= |hosts| && forall k :: 0 <= k < h ==> hosts[k] != addr
      {
        h := h + 1;
      }
    }

    /** What is left of CanRemoveRaftMember's test for a member. */
    ghost predicate LeavesMajority(down: seq<nat>, id: nat)
      reads this
    {
      |peers| > 0 && 2 * (|peers| - 1 - |DownWithout(down, id)|) > |peers| - 1
    }

    /**
    A removal from the request to the change. The partition's lists part exactly when a request that goes through has
    the id of a member and an address that no member has. Raft is given the id of the request and the partition the
    corrected one, unless the removal is forced: the two part exactly when a request that goes through unforced has the
    address of a member and not its id.
    */
    method HandleRemove(req: Peer, down: seq<nat>, autoRemove: bool, force: bool)
      returns (removed: bool, ghost peer: Peer)
      requires Valid()
      modifies this
      ensures if AtAddr(old(peers), req.addr) then peer in old(peers) && peer.addr == req.addr else peer == req
      ensures removed <==>
                || force
                || (req.id != 0
                    && (autoRemove || (AtAddr(old(peers), req.addr) && old(LeavesMajority(down, peer.id)))))
      ensures Valid() <==> !removed || AtAddr(old(peers), req.addr) || !Present(old(peers), req.id)
      ensures old(RaftMatches()) ==> (RaftMatches() <==> !removed || force || OwnId(old(peers), req))
      ensures AtAddr(old(peers), req.addr) && removed ==>
                |peers| == |old(peers)| - 1 && multiset(hosts) + multiset{req.addr} == old(multiset(hosts))
      ensures !removed ==> peers == old(peers) && hosts == old(hosts) && replicas == old(replicas) && raft == old(raft)
    {
      var found, removePeer := CorrectPeer(peers, req);
      peer := removePeer;
      AddrsHold(peers, hosts, req.addr);
      PresentIs(peers, removePeer.id);
      PresentIs(peers, req.id);
      if req.addr !in replicas && !force && !autoRemove {
        return false, peer;
      }
      if !found && !autoRemove && !force {
        assert false;
      }
      if found {
        ghost var i :| 0 <= i < |peers| && peers[i] == peer;
        assert Present(peers, peer.id);
      }
      if !autoRemove {
        var ok := CanRemoveRaftMember(peers, down, removePeer, force);
        if !ok {
          return false, peer;
        }
      }
      if force {
        raft := raft - {removePeer.id};
        RemoveRaftNode(removePeer);
        return true, peer;
      }
      if req.id != 0 {
        raft := raft - {req.id};
        RemoveRaftNode(removePeer);
        return true, peer;
      }
      removed := false;
    }
  }

  /** The lists after the removal of the peer at `i` and of the host at `h`, if there is one. */
  lemma Removed(peers: seq<Peer>, hosts: seq<string>, i: nat, h: nat, peer: Peer)
    requires IdsDiffer(peers) && Agree(peers, hosts) && i < |peers| && peers[i].id == peer.id
    requires h <= |hosts| && (h < |hosts| ==> hosts[h] == peer.addr) && (h < |hosts| <==> peer.addr in hosts)
    ensures var rest := peers[..i] + peers[i + 1..];
            var left := if h < |hosts| then hosts[..h] + hosts[h + 1..] else hosts;
            && IdsDiffer(rest) && IdsOf(rest) == IdsOf(peers) - {peer.id}
            && (Agree(rest, left) <==> peer in peers)
            && (peer in peers ==> multiset(left) + multiset{peer.addr} == multiset(hosts))
  {
    hide IdsDiffer, IdsOf, Agree;
    var left := if h < |hosts| then hosts[..h] + hosts[h + 1..] else hosts;
    if h < |hosts| {
      HostsWithout(hosts, h);
    }
    RemovalAgrees(peers, hosts, i, peer.addr, left);
    IdsWithout(peers, i);
    OnlyOne(peers, i, peer);
    if peer in peers {
      AddrsHold(peers, hosts, peer.addr);
    }
  }

  lemma OnlyOne(peers: seq<Peer>, i: nat, peer: Peer)
    requires IdsDiffer(peers) && i < |peers| && peers[i].id == peer.id
    ensures peer in peers <==> peer.addr == peers[i].addr
    ensures peer in peers ==> AtAddr(peers, peer.addr)
  {
    assert peer.addr == peers[i].addr ==> peer == peers[i];
  }

  lemma WithoutOne(peers: seq<Peer>, i: nat, p: Peer)
    requires IdsDiffer(peers) && i < |peers|
    ensures p in peers[..i] + peers[i + 1..] <==> p in peers && p != peers[i]
  {
    var rest := peers[..i] + peers[i + 1..];
    assert peers == peers[..i] + [peers[i]] + peers[i + 1..];
    if p in rest {
      var k :| 0 <= k < |rest| && rest[k] == p;
      assert p == peers[if k < i then k else k + 1];
    }
  }

  lemma IdsWithout(peers: seq<Peer>, i: nat)
    requires IdsDiffer(peers) && i < |peers|
    ensures IdsDiffer(peers[..i] + peers[i + 1..])
    ensures IdsOf(peers[..i] + peers[i + 1..]) == IdsOf(peers) - {peers[i].id}
  {
    var rest := peers[..i] + peers[i + 1..];
    forall p ensures p in rest <==> p in peers && p != peers[i] {
      WithoutOne(peers, i, p);
    }
  }

  lemma IdsMore(peers: seq<Peer>, peer: Peer)
    ensures IdsOf(peers + [peer]) == IdsOf(peers) + {peer.id}
  {
    assert forall p :: p in peers + [peer] <==> p in peers || p == peer;
    assert peer in peers + [peer];
  }

  lemma PresentIs(peers: seq<Peer>, id: nat)
    ensures Present(peers, id) <==> id in IdsOf(peers)
  {
    if id in IdsOf(peers) {
      var p :| p in peers && p.id == id;
      var i :| 0 <= i < |peers| && peers[i] == p;
    }
  }
}

/**
Raft log truncation over the whole group. The leader asks every replica for its applied id and broadcasts
the minimum; messages may be delayed, repeated or lost, and any replica may crash between any two events.
*/
module ReplicaTruncation {
  import opened ReplicaModel
  import opened ReplicaRedo

  // ---------------------------------------------------------------- collecting the minimum

  datatype Reply = NoReply | AppliedAt(id: nat)

  /** What getAllReplicaAppliedID leaves in the slice: zero for a replica that did not answer. */
  function Collected(reply: Reply): nat {
    match reply
    case NoReply => 0
    case AppliedAt(id) => id
  }

  /** The least element and the first position that holds it. */
  method FindMinAppliedID(ids: seq<nat>) returns (least: nat, index: nat)
    requires ids != []
    ensures index < |ids| && ids[index] == least
    ensures forall i :: 0 <= i < |ids| ==> least <= ids[i]
    ensures forall i :: 0 <= i < index ==> least < ids[i]
  {
    index := 0;
    least := ids[0];
    for i := 1 to |ids|
      invariant index < i && ids[index] == least
      invariant forall k :: 0 <= k < i ==> least <= ids[k]
      invariant forall k :: 0 <= k < index ==> least < ids[k]
    {
      if ids[i] < least {
        least := ids[i];
        index := i;
      }
    }
  }

  /** The leader's round. The count of replies is a uint8, and so is the group size it is compared with:
      in a group of 256 or more a broadcast can go out although replies are missing, but then it carries zero. */
  method UpdateMinAppliedID(isLeader: bool, appliedID: nat, replies: seq<Reply>) returns (broadcast: Reply)
    ensures broadcast.AppliedAt? ==> isLeader && appliedID != 0 && |replies| > 0
    ensures broadcast.AppliedAt? ==> forall i :: 0 <= i < |replies| ==> broadcast.id <= Collected(replies[i])
    ensures broadcast.AppliedAt? && broadcast.id > 0 ==> NoReply !in replies
    ensures isLeader && appliedID != 0 && 0 < |replies| < 256 && NoReply !in replies ==>
              broadcast.AppliedAt? && broadcast in replies
  {
    broadcast := NoReply;
    if !isLeader || appliedID == 0 {
      return;
    }
    var ids: seq<nat> := [];
    var replyNum := 0;
    for i := 0 to |replies|
      invariant |ids| == i && forall k :: 0 <= k < i ==> ids[k] == Collected(replies[k])
      invariant 0 <= replyNum < 256
      invariant i < 256 && NoReply !in replies ==> replyNum == i
    {
      ids := ids + [Collected(replies[i])];
      if replies[i].AppliedAt? {
        replyNum := (replyNum + 1) % 256;
      }
    }
    if replyNum == 0 {
      return;
    }
    if replyNum == |ids| % 256 {
      assert ids != [];
      var least, index := FindMinAppliedID(ids);
      broadcast := AppliedAt(least);
      assert NoReply !in replies ==> broadcast == replies[index];
    }
  }

  // ---------------------------------------------------------------- the group

  /** `reports` holds every applied id ever reported, `sent` every minimum ever broadcast. */
  datatype Group = Group(replicas: map<nat, Replica>, reports: set<(nat, nat)>, sent: set<nat>)

  datatype GroupEvent =
    | Local(m: nat, ev: Event)               // any event of one replica but the arrival of a minimum
    | Report(m: nat)                         // replica m answers a request for its applied id
    | Broadcast(replies: map<nat, Reply>, id: nat)
    | Deliver(m: nat, id: nat)               // a broadcast reaches replica m

  type Configs = map<nat, Config>

  /** A leader may broadcast any id that is at most what each member reported at some time (zero if it did not). */
  predicate CanBroadcast(g: Group, replies: map<nat, Reply>, id: nat) {
    && replies.Keys == g.replicas.Keys
    && forall m :: m in replies ==>
         && id <= Collected(replies[m])
         && (replies[m].AppliedAt? ==> (m, replies[m].id) in g.reports)
  }

  predicate GroupEnabled(cfgs: Configs, g: Group, ge: GroupEvent)
    requires g.replicas.Keys == cfgs.Keys
  {
    match ge
    case Local(m, ev) => m in cfgs && !ev.SetMin? && Enabled(cfgs[m], g.replicas[m], ev)
    case Report(m) => m in cfgs
    case Broadcast(replies, id) => CanBroadcast(g, replies, id)
    case Deliver(m, id) => m in cfgs && id in g.sent
  }

  function GroupStep(cfgs: Configs, g: Group, ge: GroupEvent): (g': Group)
    requires g.replicas.Keys == cfgs.Keys && GroupEnabled(cfgs, g, ge)
    ensures g'.replicas.Keys == cfgs.Keys
  {
    match ge
    case Local(m, ev) => g.(replicas := g.replicas[m := Step(cfgs[m], g.replicas[m], ev)])
    case Report(m) => g.(reports := g.reports + {(m, g.replicas[m].appliedID)})
    case Broadcast(_, id) => g.(sent := g.sent + {id})
    case Deliver(m, id) => g.(replicas := g.replicas[m := Step(cfgs[m], g.replicas[m], SetMin(id))])
  }

  function CreatedGroup(cfgs: Configs): (g: Group)
    ensures g.replicas.Keys == cfgs.Keys
  {
    Group(map m | m in cfgs :: Created(cfgs[m]), {}, {})
  }

  predicate GroupCanRun(cfgs: Configs, g: Group, ges: seq<GroupEvent>)
    requires g.replicas.Keys == cfgs.Keys
    decreases |ges|
  {
    ges == [] || (GroupEnabled(cfgs, g, ges[0]) && GroupCanRun(cfgs, GroupStep(cfgs, g, ges[0]), ges[1..]))
  }

  function GroupRun(cfgs: Configs, g: Group, ges: seq<GroupEvent>): (g': Group)
    requires g.replicas.Keys == cfgs.Keys && GroupCanRun(cfgs, g, ges)
    ensures g'.replicas.Keys == cfgs.Keys
    decreases |ges|
  {
    if ges == [] then g else GroupRun(cfgs, GroupStep(cfgs, g, ges[0]), ges[1..])
  }

  // ---------------------------------------------------------------- the invariant

  /** Every id by which replica `r` has cut, or may come to cut, its log. */
  ghost predicate CutsBelow(r: Replica, bound: nat) {
    CutOrdered(r, bound) && r.minAppliedID <= bound
  }

  ghost predicate GroupInv(cfgs: Configs, g: Group) {
    && g.replicas.Keys == cfgs.Keys
    && (forall m :: m in cfgs ==> IdsOrdered(cfgs[m], g.replicas[m]) && CutSafe(g.replicas[m]))
    && (forall m, id :: m in cfgs && (m, id) in g.reports ==> id <= g.replicas[m].everApplied)
    && (forall id, q :: id in g.sent && q in cfgs ==> id <= g.replicas[q].everApplied)
    && CutsEverywhereBelow(g.replicas)
  }

  /** No replica has cut, or may cut, its log beyond what every member has applied. */
  ghost predicate CutsEverywhereBelow(replicas: map<nat, Replica>) {
    forall m, q :: m in replicas && q in replicas ==> CutsBelow(replicas[m], replicas[q].everApplied)
  }

  lemma StepKeepsCutsBelow(cfg: Config, r: Replica, ev: Event, bound: nat)
    requires Enabled(cfg, r, ev) && CutsBelow(r, bound) && (ev.SetMin? ==> ev.m <= bound)
    ensures CutsBelow(Step(cfg, r, ev), bound)
    ensures Step(cfg, r, ev).everApplied >= r.everApplied
  {
  }

  lemma GroupStepKeepsInv(cfgs: Configs, g: Group, ge: GroupEvent)
    requires GroupInv(cfgs, g) && GroupEnabled(cfgs, g, ge)
    ensures GroupInv(cfgs, GroupStep(cfgs, g, ge))
  {
    match ge
    case Local(m, ev) => MemberStepKeepsInv(cfgs, g, m, ev);
    case Report(m) =>
    case Broadcast(replies, id) =>
    case Deliver(m, id) => MemberStepKeepsInv(cfgs, g, m, SetMin(id));
  }

  lemma MemberStepKeepsInv(cfgs: Configs, g: Group, m: nat, ev: Event)
    requires GroupInv(cfgs, g) && m in cfgs && Enabled(cfgs[m], g.replicas[m], ev)
    requires ev.SetMin? ==> ev.m in g.sent
    ensures GroupInv(cfgs, g.(replicas := g.replicas[m := Step(cfgs[m], g.replicas[m], ev)]))
  {
    StepKeepsCutSafe(cfgs[m], g.replicas[m], ev);
    forall q | q in cfgs
      ensures CutsBelow(Step(cfgs[m], g.replicas[m], ev), g.replicas[q].everApplied)
    {
      StepKeepsCutsBelow(cfgs[m], g.replicas[m], ev, g.replicas[q].everApplied);
    }
    StepKeepsCutsBelow(cfgs[m], g.replicas[m], ev, g.replicas[m].everApplied);
    ReplaceKeepsInv(cfgs, g, m, Step(cfgs[m], g.replicas[m], ev));
  }

  lemma ReplaceKeepsInv(cfgs: Configs, g: Group, m: nat, r: Replica)
    requires GroupInv(cfgs, g) && m in cfgs
    requires IdsOrdered(cfgs[m], r) && CutSafe(r) && r.everApplied >= g.replicas[m].everApplied
    requires forall q :: q in cfgs ==> CutsBelow(r, g.replicas[q].everApplied)
    ensures GroupInv(cfgs, g.(replicas := g.replicas[m := r]))
  {
    hide IdsOrdered, CutSafe, CutsBelow, CutsEverywhereBelow;
    ReplaceKeepsCuts(g.replicas, m, r);
  }

  lemma ReplaceKeepsCuts(replicas: map<nat, Replica>, m: nat, r: Replica)
    requires CutsEverywhereBelow(replicas) && m in replicas && r.everApplied >= replicas[m].everApplied
    requires forall q :: q in replicas ==> CutsBelow(r, replicas[q].everApplied)
    ensures CutsEverywhereBelow(replicas[m := r])
  {
    var replicas' := replicas[m := r];
    forall k, q | k in replicas' && q in replicas' ensures CutsBelow(replicas'[k], replicas'[q].everApplied) {
      assert CutsBelow(replicas'[k], replicas[q].everApplied);
    }
  }

  lemma {:induction false} GroupRunKeepsInv(cfgs: Configs, g: Group, ges: seq<GroupEvent>)
    requires GroupInv(cfgs, g) && GroupCanRun(cfgs, g, ges)
    ensures GroupInv(cfgs, GroupRun(cfgs, g, ges))
    decreases |ges|
  {
    if ges != [] {
      GroupStepKeepsInv(cfgs, g, ges[0]);
      GroupRunKeepsInv(cfgs, GroupStep(cfgs, g, ges[0]), ges[1..]);
    }
  }

  lemma GroupRunCons(cfgs: Configs, g: Group, ge: GroupEvent, ges: seq<GroupEvent>)
    requires g.replicas.Keys == cfgs.Keys && GroupEnabled(cfgs, g, ge) && GroupCanRun(cfgs, GroupStep(cfgs, g, ge), ges)
    ensures GroupCanRun(cfgs, g, [ge] + ges)
    ensures GroupRun(cfgs, g, [ge] + ges) == GroupRun(cfgs, GroupStep(cfgs, g, ge), ges)
  {
    hide GroupEnabled, GroupStep;
    assert ([ge] + ges)[0] == ge && ([ge] + ges)[1..] == ges;
  }

  /** A broadcast minimum arrives, and the replica's next tick cuts its log there. */
  function CutAt(m: nat, id: nat): seq<GroupEvent> {
    [Deliver(m, id), Local(m, LoadID), Local(m, StoreID), Local(m, RequestTruncate), Local(m, CutLog(id))]
  }

  lemma TickCuts(cfg: Config, r: Replica, id: nat)
    requires r.lastTruncateID < id <= r.appliedID && r.firstCut <= id
    ensures Enabled(cfg, r, SetMin(id))
    ensures
      var r1 := Step(cfg, r, SetMin(id));
      && Enabled(cfg, r1, LoadID)
      && var r2 := Step(cfg, r1, LoadID);
      && Enabled(cfg, r2, StoreID)
      && var r3 := Step(cfg, r2, StoreID);
      && Enabled(cfg, r3, RequestTruncate)
      && var r4 := Step(cfg, r3, RequestTruncate);
      && Enabled(cfg, r4, CutLog(id))
      && var r5 := Step(cfg, r4, CutLog(id));
      r5.firstCut == r5.lastTruncateID == id && r5.storedID == r.appliedID
  {
  }

  /** And the log does get cut, at any broadcast minimum that the replica has applied and that is past its last cut. */
  lemma LogGetsCut(cfgs: Configs, g: Group, m: nat, id: nat)
    requires g.replicas.Keys == cfgs.Keys && m in cfgs && id in g.sent
    requires g.replicas[m].lastTruncateID < id <= g.replicas[m].appliedID && g.replicas[m].firstCut <= id
    ensures GroupCanRun(cfgs, g, CutAt(m, id))
    ensures var r := GroupRun(cfgs, g, CutAt(m, id)).replicas[m];
            r.firstCut == r.lastTruncateID == id && r.storedID == g.replicas[m].appliedID
  {
    hide Step, Enabled;
    TickCuts(cfgs[m], g.replicas[m], id);
    var ges := CutAt(m, id);
    var g1 := GroupStep(cfgs, g, ges[0]);
    var g2 := GroupStep(cfgs, g1, ges[1]);
    var g3 := GroupStep(cfgs, g2, ges[2]);
    var g4 := GroupStep(cfgs, g3, ges[3]);
    var g5 := GroupStep(cfgs, g4, ges[4]);
    assert GroupCanRun(cfgs, g5, []) && GroupRun(cfgs, g5, []) == g5;
    hide GroupCanRun, GroupRun;
    GroupRunCons(cfgs, g4, ges[4], []);
    GroupRunCons(cfgs, g3, ges[3], [ges[4]] + []);
    GroupRunCons(cfgs, g2, ges[2], [ges[3]] + ([ges[4]] + []));
    GroupRunCons(cfgs, g1, ges[1], [ges[2]] + ([ges[3]] + ([ges[4]] + [])));
    GroupRunCons(cfgs, g, ges[0], [ges[1]] + ([ges[2]] + ([ges[3]] + ([ges[4]] + []))));
    assert ges == [ges[0]] + ([ges[1]] + ([ges[2]] + ([ges[3]] + ([ges[4]] + []))));
  }

  predicate InLog(r: Replica, index: nat) { r.firstCut < index <= r.lastIndex }

  /** In every reachable state, no replica has cut its log beyond its own apply-index file nor beyond what every
      member has applied at some time. Hence a crashed member replays from its own log, whose tail reaches every
      index cut anywhere, and a member that lags asks a leader only for entries the leader still holds: the
      snapshot that ApplySnapshot does not implement is never needed. */
  lemma SnapshotNeverNeeded(cfgs: Configs, ges: seq<GroupEvent>, m: nat, q: nat)
    requires m in cfgs && q in cfgs
    requires GroupCanRun(cfgs, CreatedGroup(cfgs), ges)
    ensures
      var g := GroupRun(cfgs, CreatedGroup(cfgs), ges);
      var leader, follower := g.replicas[m], g.replicas[q];
      && leader.lastTruncateID <= leader.storedID
      && leader.firstCut <= leader.storedID <= leader.raftApplied
      && leader.firstCut <= follower.everApplied
      && (forall index :: follower.storedID < index <= follower.high ==> InLog(follower, index))
      && (forall index :: follower.lastIndex < index <= leader.lastIndex ==> InLog(leader, index))
  {
    GroupRunKeepsInv(cfgs, CreatedGroup(cfgs), ges);
    var g := GroupRun(cfgs, CreatedGroup(cfgs), ges);
    assert CutsBelow(g.replicas[m], g.replicas[q].everApplied);
  }
}

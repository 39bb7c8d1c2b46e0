/**
The circulation of tiny extent ids, step by step: a queue is a channel and a map of the ids it is meant to hold, and
taking an id or giving one back touches the two one after the other, without a lock.

A worker is one goroutine's dealings with one id: a write packet that took it, a repair round that took it among others,
or a move from one queue to the other.
*/
module TinyEvents {

  const TINY_EXTENT_COUNT := 64

  datatype Queue = Available | Broken

  /** A channel, the map that names what is in it, and the ids whose name was stored too late. */
  datatype Lane = Lane(channel: seq<nat>, names: set<nat>, late: set<nat>)

  datatype Worker =
    | Received(q: Queue, id: nat)                   // taken from the channel, not yet from the map
    | Holding(id: nat)
    | Clear(q: Queue, id: nat)                      // the map does not name the id, about to send
    | Storing(q: Queue, id: nat, overtaken: bool)   // sent, about to store the name
    | Done

  /** `dropped` are the ids that were given back and found to be named already. */
  datatype Tiny = Tiny(available: Lane, broken: Lane, workers: seq<Worker>, dropped: multiset<nat>)

  datatype Event =
    | Receive(from: Queue)
    | Delete(w: nat)
    | Load(w: nat, to: Queue)
    | Send(w: nat)
    | Store(w: nat)

  function LaneOf(s: Tiny, q: Queue): Lane { if q == Available then s.available else s.broken }

  function WithLane(s: Tiny, q: Queue, lane: Lane): Tiny {
    if q == Available then s.(available := lane) else s.(broken := lane)
  }

  /** The names of an id that are still to be stored come after this deletion. */
  function Overtaken(w: Worker, q: Queue, id: nat): Worker {
    if w == Storing(q, id, false) then Storing(q, id, true) else w
  }

  function AllOvertaken(ws: seq<Worker>, q: Queue, id: nat): (marked: seq<Worker>)
    ensures |marked| == |ws| && forall i :: 0 <= i < |ws| ==> marked[i] == Overtaken(ws[i], q, id)
  {
    seq(|ws|, i requires 0 <= i < |ws| => Overtaken(ws[i], q, id))
  }

  predicate Enabled(s: Tiny, e: Event) {
    match e
    case Receive(q) => LaneOf(s, q).channel != []
    case Delete(w) => w < |s.workers| && s.workers[w].Received?
    case Load(w, _) => w < |s.workers| && s.workers[w].Holding?
    case Send(w) => w < |s.workers| && s.workers[w].Clear?
    case Store(w) => w < |s.workers| && s.workers[w].Storing?
  }

  function Step(s: Tiny, e: Event): Tiny
    requires Enabled(s, e)
  {
    match e
    case Receive(q) =>
      var lane := LaneOf(s, q);
      WithLane(s, q, lane.(channel := lane.channel[1..])).(workers := s.workers + [Received(q, lane.channel[0])])
    case Delete(w) =>
      var q, id := s.workers[w].q, s.workers[w].id;
      var lane := LaneOf(s, q);
      WithLane(s, q, lane.(names := lane.names - {id}, late := lane.late - {id}))
        .(workers := AllOvertaken(s.workers, q, id)[w := Holding(id)])
    case Load(w, q) =>
      var id := s.workers[w].id;
      if id in LaneOf(s, q).names then s.(workers := s.workers[w := Done], dropped := s.dropped + multiset{id})
      else s.(workers := s.workers[w := Clear(q, id)])
    case Send(w) =>
      var q, id := s.workers[w].q, s.workers[w].id;
      var lane := LaneOf(s, q);
      WithLane(s, q, lane.(channel := lane.channel + [id])).(workers := s.workers[w := Storing(q, id, false)])
    case Store(w) =>
      var q, id, overtaken := s.workers[w].q, s.workers[w].id, s.workers[w].overtaken;
      var lane := LaneOf(s, q);
      WithLane(s, q, lane.(names := lane.names + {id}, late := if overtaken then lane.late + {id} else lane.late))
        .(workers := s.workers[w := Done])
  }

  predicate CanRun(s: Tiny, events: seq<Event>)
    decreases |events|
  {
    events != [] ==> Enabled(s, events[0]) && CanRun(Step(s, events[0]), events[1..])
  }

  function Run(s: Tiny, events: seq<Event>): Tiny
    requires CanRun(s, events)
    decreases |events|
  {
    if events == [] then s else Run(Step(s, events[0]), events[1..])
  }

  /** The ids 1 to n, in order. */
  function FirstIds(n: nat): (ids: seq<nat>)
    ensures |ids| == n && forall i :: 0 <= i < n ==> ids[i] == i + 1
  {
    seq(n, i => i + 1)
  }

  /** initTinyExtent: every tiny extent is queued as broken. */
  function Created(): Tiny {
    var ids := FirstIds(TINY_EXTENT_COUNT);
    Tiny(Lane([], {}, {}), Lane(ids, set id | id in ids, {}), [], multiset{})
  }

  // ---------------------------------------------------------------- where the ids are

  predicate IsTinyExtent(id: nat) { 1 <= id <= TINY_EXTENT_COUNT }

  predicate Has(w: Worker, id: nat) { (w.Received? || w.Holding? || w.Clear?) && w.id == id }

  /** How many workers have the id. */
  function Holders(ws: seq<Worker>, id: nat): nat {
    if ws == [] then 0 else Holders(ws[..|ws| - 1], id) + if Has(ws[|ws| - 1], id) then 1 else 0
  }

  function Times(channel: seq<nat>, id: nat): nat { multiset(channel)[id] }

  /** In how many places the id is: in a channel, with a worker, or dropped. */
  function Places(s: Tiny, id: nat): nat {
    Times(s.available.channel, id) + Times(s.broken.channel, id) + Holders(s.workers, id) + s.dropped[id]
  }

  lemma HoldersSnoc(ws: seq<Worker>, w: Worker, id: nat)
    ensures Holders(ws + [w], id) == Holders(ws, id) + if Has(w, id) then 1 else 0
  {
    assert (ws + [w])[..|ws|] == ws;
  }

  lemma {:induction false} HoldersSet(ws: seq<Worker>, w: nat, worker: Worker, id: nat)
    requires w < |ws|
    ensures Holders(ws[w := worker], id) + (if Has(ws[w], id) then 1 else 0)
         == Holders(ws, id) + if Has(worker, id) then 1 else 0
  {
    hide Has;
    var n := |ws| - 1;
    if w < n {
      HoldersSet(ws[..n], w, worker, id);
      assert ws[w := worker][..n] == ws[..n][w := worker];
    } else {
      assert ws[w := worker][..n] == ws[..n];
    }
  }

  lemma {:induction false} HoldersAtLeast(ws: seq<Worker>, w: nat, id: nat)
    requires w < |ws| && Has(ws[w], id)
    ensures Holders(ws, id) >= 1
  {
    hide Has;
    if w < |ws| - 1 {
      HoldersAtLeast(ws[..|ws| - 1], w, id);
    }
  }

  /** Two workers cannot share an id that is in one place only. */
  lemma {:induction false} HoldersTwice(ws: seq<Worker>, v: nat, w: nat, id: nat)
    requires v < |ws| && w < |ws| && v != w && Has(ws[v], id) && Has(ws[w], id)
    ensures Holders(ws, id) >= 2
  {
    hide Has;
    var n := |ws| - 1;
    if v < n && w < n {
      HoldersTwice(ws[..n], v, w, id);
    } else {
      HoldersAtLeast(ws[..n], if v < n then v else w, id);
    }
  }

  lemma {:induction false} HoldersOvertaken(ws: seq<Worker>, q: Queue, of: nat, id: nat)
    ensures Holders(AllOvertaken(ws, q, of), id) == Holders(ws, id)
  {
    if ws != [] {
      HoldersOvertaken(ws[..|ws| - 1], q, of, id);
      assert AllOvertaken(ws, q, of)[..|ws| - 1] == AllOvertaken(ws[..|ws| - 1], q, of);
    }
  }

  lemma TimesSnoc(channel: seq<nat>, x: nat, id: nat)
    ensures Times(channel + [x], id) == Times(channel, id) + if x == id then 1 else 0
  {
    assert multiset(channel + [x]) == multiset(channel) + multiset{x};
  }

  lemma TimesFront(channel: seq<nat>, id: nat)
    requires channel != []
    ensures Times(channel, id) == Times(channel[1..], id) + if channel[0] == id then 1 else 0
  {
    assert channel == [channel[0]] + channel[1..];
    assert multiset(channel) == multiset{channel[0]} + multiset(channel[1..]);
  }

  lemma TimesIn(channel: seq<nat>, id: nat)
    ensures id in channel <==> Times(channel, id) >= 1
  {
    assert id in channel <==> id in multiset(channel);
  }

  // ---------------------------------------------------------------- every step conserves the ids

  /** No interleaving loses an id or puts it in two places: giving one back moves it, or drops it and counts it so. */
  lemma StepConserves(s: Tiny, e: Event, id: nat)
    requires Enabled(s, e)
    ensures Places(Step(s, e), id) == Places(s, id)
  {
    hide Times, Holders;
    match e
    case Receive(q) =>
      TimesFront(LaneOf(s, q).channel, id);
      HoldersSnoc(s.workers, Received(q, LaneOf(s, q).channel[0]), id);
    case Delete(w) =>
      var q, x := s.workers[w].q, s.workers[w].id;
      HoldersOvertaken(s.workers, q, x, id);
      HoldersSet(AllOvertaken(s.workers, q, x), w, Holding(x), id);
    case Load(w, q) =>
      HoldersSet(s.workers, w, Done, id);
      HoldersSet(s.workers, w, Clear(q, s.workers[w].id), id);
    case Send(w) =>
      var q, x := s.workers[w].q, s.workers[w].id;
      TimesSnoc(LaneOf(s, q).channel, x, id);
      HoldersSet(s.workers, w, Storing(q, x, false), id);
    case Store(w) =>
      HoldersSet(s.workers, w, Done, id);
  }

  /** Every id is in exactly one place. */
  ghost predicate OnePlace(s: Tiny) { forall id: nat :: Places(s, id) == if IsTinyExtent(id) then 1 else 0 }

  // ---------------------------------------------------------------- what the maps know

  ghost predicate TakenFrom(ws: seq<Worker>, q: Queue, id: nat) { Received(q, id) in ws }

  /** A named id is in the channel, or on its way out of it, or was named too late. */
  ghost predicate NamesBacked(s: Tiny, q: Queue) {
    && (forall id :: id in LaneOf(s, q).names ==>
          id in LaneOf(s, q).channel || TakenFrom(s.workers, q, id) || id in LaneOf(s, q).late)
    && LaneOf(s, q).late <= LaneOf(s, q).names
  }

  /** What a worker is about to name, and nobody has deleted since, is in the channel or on its way out. */
  ghost predicate StoresBacked(s: Tiny, q: Queue) {
    forall id :: Storing(q, id, false) in s.workers ==> id in LaneOf(s, q).channel || TakenFrom(s.workers, q, id)
  }

  ghost predicate QueueInv(s: Tiny, q: Queue) { NamesBacked(s, q) && StoresBacked(s, q) }

  ghost predicate TinyInv(s: Tiny) { OnePlace(s) && QueueInv(s, Available) && QueueInv(s, Broken) }

  lemma ReceiveKeeps(s: Tiny, from: Queue, q: Queue)
    requires QueueInv(s, q) && Enabled(s, Receive(from))
    ensures QueueInv(Step(s, Receive(from)), q)
  {
    var lane, s' := LaneOf(s, from), Step(s, Receive(from));
    var taken := Received(from, lane.channel[0]);
    assert forall x :: x in s'.workers <==> x in s.workers || x == taken;
    assert forall id :: id in lane.channel <==> id == lane.channel[0] || id in lane.channel[1..];
  }

  lemma WorkersSet(ws: seq<Worker>, w: nat, worker: Worker, x: Worker)
    requires w < |ws|
    ensures x in ws[w := worker] ==> x in ws || x == worker
    ensures x in ws && x != ws[w] ==> x in ws[w := worker]
  {
    if x in ws && x != ws[w] {
      var i :| 0 <= i < |ws| && ws[i] == x;
      assert ws[w := worker][i] == x;
    }
  }

  lemma OvertakenIn(ws: seq<Worker>, q: Queue, id: nat, x: Worker)
    ensures x in AllOvertaken(ws, q, id) ==> x != Storing(q, id, false) && (x in ws || x == Storing(q, id, true))
    ensures x in ws && x != Storing(q, id, false) ==> x in AllOvertaken(ws, q, id)
  {
    if x in ws && x != Storing(q, id, false) {
      var i :| 0 <= i < |ws| && ws[i] == x;
      assert AllOvertaken(ws, q, id)[i] == x;
    }
  }

  lemma DeleteKeeps(s: Tiny, w: nat, q: Queue)
    requires QueueInv(s, q) && Enabled(s, Delete(w))
    ensures QueueInv(Step(s, Delete(w)), q)
  {
    var from, of := s.workers[w].q, s.workers[w].id;
    var marked := AllOvertaken(s.workers, from, of);
    forall x ensures x in marked[w := Holding(of)] ==> x == Holding(of) || x in marked
             ensures x in marked && x != Received(from, of) ==> x in marked[w := Holding(of)]
    {
      WorkersSet(marked, w, Holding(of), x);
    }
    forall x ensures x in marked ==> x != Storing(from, of, false) && (x in s.workers || x == Storing(from, of, true))
             ensures x in s.workers && x != Storing(from, of, false) ==> x in marked
    {
      OvertakenIn(s.workers, from, of, x);
    }
  }

  lemma LoadKeeps(s: Tiny, w: nat, to: Queue, q: Queue)
    requires QueueInv(s, q) && Enabled(s, Load(w, to))
    ensures QueueInv(Step(s, Load(w, to)), q)
  {
    var s' := Step(s, Load(w, to));
    forall x ensures x in s'.workers ==> x in s.workers || x == s'.workers[w]
             ensures x in s.workers && x != s.workers[w] ==> x in s'.workers
    {
      WorkersSet(s.workers, w, s'.workers[w], x);
    }
  }

  lemma SendKeeps(s: Tiny, w: nat, q: Queue)
    requires QueueInv(s, q) && Enabled(s, Send(w))
    ensures QueueInv(Step(s, Send(w)), q)
  {
    var s' := Step(s, Send(w));
    forall x ensures x in s'.workers ==> x in s.workers || x == s'.workers[w]
             ensures x in s.workers && x != s.workers[w] ==> x in s'.workers
    {
      WorkersSet(s.workers, w, s'.workers[w], x);
    }
  }

  lemma StoreKeeps(s: Tiny, w: nat, q: Queue)
    requires QueueInv(s, q) && Enabled(s, Store(w))
    ensures QueueInv(Step(s, Store(w)), q)
  {
    var s' := Step(s, Store(w));
    assert s.workers[w] in s.workers;
    forall x ensures x in s'.workers ==> x in s.workers || x == s'.workers[w]
             ensures x in s.workers && x != s.workers[w] ==> x in s'.workers
    {
      WorkersSet(s.workers, w, s'.workers[w], x);
    }
  }

  lemma StepKeepsQueue(s: Tiny, e: Event, q: Queue)
    requires QueueInv(s, q) && Enabled(s, e)
    ensures QueueInv(Step(s, e), q)
  {
    hide Step, QueueInv;
    match e
    case Receive(from) => ReceiveKeeps(s, from, q);
    case Delete(w) => DeleteKeeps(s, w, q);
    case Load(w, to) => LoadKeeps(s, w, to, q);
    case Send(w) => SendKeeps(s, w, q);
    case Store(w) => StoreKeeps(s, w, q);
  }

  lemma StepKeepsTiny(s: Tiny, e: Event)
    requires TinyInv(s) && Enabled(s, e)
    ensures TinyInv(Step(s, e))
  {
    hide Step, QueueInv, Places;
    StepKeepsQueue(s, e, Available);
    StepKeepsQueue(s, e, Broken);
    forall id: nat ensures Places(Step(s, e), id) == if IsTinyExtent(id) then 1 else 0 {
      StepConserves(s, e, id);
    }
  }

  lemma {:induction false} RunKeepsTiny(s: Tiny, events: seq<Event>)
    requires TinyInv(s) && CanRun(s, events)
    ensures TinyInv(Run(s, events))
    decreases |events|
  {
    hide TinyInv;
    if events != [] {
      StepKeepsTiny(s, events[0]);
      RunKeepsTiny(Step(s, events[0]), events[1..]);
    }
  }

  lemma {:induction false} FirstIdsOnce(n: nat, id: nat)
    ensures Times(FirstIds(n), id) == if 1 <= id <= n then 1 else 0
  {
    if n > 0 {
      FirstIdsOnce(n - 1, id);
      assert FirstIds(n) == FirstIds(n - 1) + [n];
      TimesSnoc(FirstIds(n - 1), n, id);
    }
  }

  lemma CreatedTiny()
    ensures TinyInv(Created())
  {
    hide Times, FirstIds;
    forall id: nat ensures Places(Created(), id) == if IsTinyExtent(id) then 1 else 0 {
      FirstIdsOnce(TINY_EXTENT_COUNT, id);
      NoneIn(id);
    }
  }

  lemma NoneIn(id: nat)
    ensures Times([], id) == 0
  {
  }

  // ---------------------------------------------------------------- over whole runs

  /** In every reachable state every tiny extent is in exactly one place, whatever the goroutines interleave. */
  lemma EveryIdInOnePlace(events: seq<Event>, id: nat)
    requires CanRun(Created(), events)
    ensures Places(Run(Created(), events), id) == if IsTinyExtent(id) then 1 else 0
  {
    hide Created, Places, QueueInv;
    CreatedTiny();
    RunKeepsTiny(Created(), events);
  }

  /** What a step takes out of a queue: the id its new worker has. */
  function TakenBy(s: Tiny, e: Event, q: Queue): seq<nat>
    requires Enabled(s, e)
  {
    var next := Step(s, e).workers;
    if e == Receive(q) && |next| > |s.workers| && next[|s.workers|].Received? then [next[|s.workers|].id] else []
  }

  /** What a step puts into a queue: the id of the worker that sends. */
  function GivenBy(s: Tiny, e: Event, q: Queue): seq<nat>
    requires Enabled(s, e)
  {
    if e.Send? && s.workers[e.w].q == q then [s.workers[e.w].id] else []
  }

  function AllTaken(s: Tiny, events: seq<Event>, q: Queue): seq<nat>
    requires CanRun(s, events)
    decreases |events|
  {
    if events == [] then [] else TakenBy(s, events[0], q) + AllTaken(Step(s, events[0]), events[1..], q)
  }

  function AllGiven(s: Tiny, events: seq<Event>, q: Queue): seq<nat>
    requires CanRun(s, events)
    decreases |events|
  {
    if events == [] then [] else GivenBy(s, events[0], q) + AllGiven(Step(s, events[0]), events[1..], q)
  }

  lemma StepInOrder(s: Tiny, e: Event, q: Queue)
    requires Enabled(s, e)
    ensures LaneOf(s, q).channel + GivenBy(s, e, q) == TakenBy(s, e, q) + LaneOf(Step(s, e), q).channel
  {
  }

  lemma InOrder(a: seq<nat>, given: seq<nat>, taken: seq<nat>, b: seq<nat>, given': seq<nat>, taken': seq<nat>,
                c: seq<nat>)
    requires a + given == taken + b && b + given' == taken' + c
    ensures a + (given + given') == taken + taken' + c
  {
    assert a + (given + given') == a + given + given';
    assert taken + b + given' == taken + (b + given');
    assert taken + (taken' + c) == taken + taken' + c;
  }

  /** Over every run ids leave a queue in the order in which they came, and what has not left is queued. */
  lemma {:induction false} FirstInFirstOut(s: Tiny, events: seq<Event>, q: Queue)
    requires CanRun(s, events)
    ensures LaneOf(s, q).channel + AllGiven(s, events, q)
         == AllTaken(s, events, q) + LaneOf(Run(s, events), q).channel
    decreases |events|
  {
    if events != [] {
      hide Step, TakenBy, GivenBy, LaneOf;
      var next, rest := Step(s, events[0]), events[1..];
      StepInOrder(s, events[0], q);
      FirstInFirstOut(next, rest, q);
      InOrder(LaneOf(s, q).channel, GivenBy(s, events[0], q), TakenBy(s, events[0], q), LaneOf(next, q).channel,
              AllGiven(next, rest, q), AllTaken(next, rest, q), LaneOf(Run(next, rest), q).channel);
    }
  }

  /** A worker's id is in no channel, and no other worker has it. */
  lemma OnlyHere(s: Tiny, w: nat, q: Queue)
    requires OnePlace(s) && w < |s.workers| && s.workers[w].Holding?
    ensures s.workers[w].id !in LaneOf(s, q).channel && !TakenFrom(s.workers, q, s.workers[w].id)
    ensures IsTinyExtent(s.workers[w].id)
  {
    var id := s.workers[w].id;
    assert Places(s, id) == if IsTinyExtent(id) then 1 else 0;
    HoldersAtLeast(s.workers, w, id);
    TimesIn(LaneOf(s, q).channel, id);
    if TakenFrom(s.workers, q, id) {
      var v :| 0 <= v < |s.workers| && s.workers[v] == Received(q, id);
      HoldersTwice(s.workers, v, w, id);
    }
  }

  /**
  When a give-back is dropped: exactly when the last name stored for the id in that queue was stored after the entry it
  stands for had been taken out again, that is, when a taker ran between the send and the store.
  */
  lemma DroppedIffLate(s: Tiny, w: nat, q: Queue)
    requires TinyInv(s) && Enabled(s, Load(w, q))
    ensures Step(s, Load(w, q)).workers[w] == Done <==> s.workers[w].id in LaneOf(s, q).late
  {
    hide OnePlace;
    OnlyHere(s, w, q);
  }

  /** A name is stored in time: nobody took the entry out before. */
  predicate InTime(s: Tiny, e: Event) {
    e.Store? && e.w < |s.workers| && s.workers[e.w].Storing? ==> !s.workers[e.w].overtaken
  }

  predicate AllInTime(s: Tiny, events: seq<Event>)
    requires CanRun(s, events)
    decreases |events|
  {
    events != [] ==> InTime(s, events[0]) && AllInTime(Step(s, events[0]), events[1..])
  }

  ghost predicate NothingLate(s: Tiny) { s.available.late == {} && s.broken.late == {} && s.dropped == multiset{} }

  lemma StepInTime(s: Tiny, e: Event)
    requires TinyInv(s) && Enabled(s, e) && NothingLate(s) && InTime(s, e)
    ensures NothingLate(Step(s, e))
  {
    hide TinyInv;
    if e.Load? {
      DroppedIffLate(s, e.w, e.to);
    }
  }

  /** While names are stored in time nothing is dropped. */
  lemma {:induction false} InTimeDropsNothing(s: Tiny, events: seq<Event>)
    requires TinyInv(s) && NothingLate(s) && CanRun(s, events) && AllInTime(s, events)
    ensures NothingLate(Run(s, events))
    decreases |events|
  {
    hide TinyInv, NothingLate, InTime;
    if events != [] {
      StepInTime(s, events[0]);
      StepKeepsTiny(s, events[0]);
      InTimeDropsNothing(Step(s, events[0]), events[1..]);
    }
  }

  /**
  One worker takes an extent from the broken queue and sends it to the available one; before it stores the name, another
  takes the extent, and deletes the name that is not there yet. When the second gives the extent back it is dropped.
  */
  const LOSING: seq<Event> := [
    Receive(Broken), Delete(0), Load(0, Available), Send(0),
    Receive(Available), Delete(1), Store(0), Load(1, Available)]

  lemma RunFrom(s: Tiny, events: seq<Event>, i: nat)
    requires i < |events| && Enabled(s, events[i]) && CanRun(Step(s, events[i]), events[i + 1..])
    ensures CanRun(s, events[i..]) && Run(s, events[i..]) == Run(Step(s, events[i]), events[i + 1..])
  {
    assert events[i..][1..] == events[i + 1..];
  }

  /** The second half: the first worker has sent the extent and not yet stored its name. */
  lemma TakenBeforeStore(s: Tiny, id: nat)
    requires s.workers == [Storing(Available, id, false)] && s.available == Lane([id], {}, {})
    ensures CanRun(s, LOSING[4..])
    ensures var s' := Run(s, LOSING[4..]);
            s'.available.channel == [] && s'.broken == s.broken && s'.dropped == s.dropped + multiset{id}
  {
    hide CanRun, Run;
    var s5 := Step(s, Receive(Available));
    var s6 := Step(s5, Delete(1));
    var s7 := Step(s6, Store(0));
    var s8 := Step(s7, Load(1, Available));
    assert s6.workers == [Storing(Available, id, true), Holding(id)];
    RunNothing(s8, LOSING[8..]);
    RunFrom(s7, LOSING, 7);
    RunFrom(s6, LOSING, 6);
    RunFrom(s5, LOSING, 5);
    RunFrom(s, LOSING, 4);
  }

  lemma RunNothing(s: Tiny, events: seq<Event>)
    requires events == []
    ensures CanRun(s, events) && Run(s, events) == s
  {
  }

  /** The extent that this run loses is in no queue any more, and no worker has it. */
  lemma LateNameLosesExtent(s: Tiny)
    requires s.workers == [] && s.broken.channel != [] && s.available == Lane([], {}, {})
    ensures CanRun(s, LOSING)
    ensures var s' := Run(s, LOSING);
            && s'.dropped == s.dropped + multiset{s.broken.channel[0]}
            && s'.available.channel == [] && s'.broken.channel == s.broken.channel[1..]
  {
    hide CanRun, Run, AllOvertaken;
    var id := s.broken.channel[0];
    var s1 := Step(s, Receive(Broken));
    var s2 := Step(s1, Delete(0));
    var s3 := Step(s2, Load(0, Available));
    var s4 := Step(s3, Send(0));
    TakenBeforeStore(s4, id);
    RunFrom(s3, LOSING, 3);
    RunFrom(s2, LOSING, 2);
    RunFrom(s1, LOSING, 1);
    RunFrom(s, LOSING, 0);
    assert LOSING[0..] == LOSING;
  }

  // ---------------------------------------------------------------- a queue never overflows

  /** The ids 1 to n. */
  function Ids(n: nat): (ids: set<nat>)
    ensures |ids| == n && forall id :: id in ids <==> 1 <= id <= n
  {
    if n == 0 then {} else Ids(n - 1) + {n}
  }

  lemma {:induction false} ChannelSize(channel: seq<nat>, ids: set<nat>)
    requires forall id :: id in channel ==> id in ids && Times(channel, id) == 1
    ensures |channel| <= |ids|
  {
    if channel != [] {
      var n := |channel| - 1;
      var last := channel[n];
      assert channel == channel[..n] + [last];
      forall id | id in channel[..n] ensures id in ids - {last} && Times(channel[..n], id) == 1 {
        TimesSnoc(channel[..n], last, id);
        TimesIn(channel[..n], id);
        assert id in channel;
      }
      ChannelSize(channel[..n], ids - {last});
    }
  }

  /** A channel has room for every tiny extent: whenever a worker is about to send, the send does not block. */
  lemma NeverBlocks(s: Tiny, w: nat)
    requires OnePlace(s) && Enabled(s, Send(w))
    ensures |LaneOf(s, s.workers[w].q).channel| < TINY_EXTENT_COUNT
  {
    hide Ids, Holders, Times;
    var channel, id := LaneOf(s, s.workers[w].q).channel, s.workers[w].id;
    HoldersAtLeast(s.workers, w, id);
    assert Places(s, id) == if IsTinyExtent(id) then 1 else 0;
    TimesIn(channel, id);
    forall x | x in channel ensures x in Ids(TINY_EXTENT_COUNT) - {id} && Times(channel, x) == 1 {
      assert Places(s, x) == if IsTinyExtent(x) then 1 else 0;
      TimesIn(channel, x);
    }
    ChannelSize(channel, Ids(TINY_EXTENT_COUNT) - {id});
  }

  // ---------------------------------------------------------------- what one worker did

  predicate ActsOn(e: Event, w: nat) { !e.Receive? && e.w == w }

  /** The events of a run that act on one worker. */
  function Acts(run: seq<Event>, w: nat): seq<Event> {
    if run == [] then []
    else Acts(run[..|run| - 1], w) + if ActsOn(run[|run| - 1], w) then [run[|run| - 1]] else []
  }

  lemma ActsSnoc(run: seq<Event>, e: Event, w: nat)
    ensures Acts(run + [e], w) == Acts(run, w) + if ActsOn(e, w) then [e] else []
  {
    assert (run + [e])[..|run|] == run;
  }

  lemma {:induction false} RunSnoc(s: Tiny, events: seq<Event>, e: Event)
    requires CanRun(s, events) && Enabled(Run(s, events), e)
    ensures CanRun(s, events + [e]) && Run(s, events + [e]) == Step(Run(s, events), e)
    decreases |events|
  {
    if events == [] {
      RunNothing(s, events);
      RunFrom(s, [e], 0);
      assert events + [e] == [e] && [e][0..] == [e];
      RunNothing(Step(s, e), [e][1..]);
    } else {
      RunSnoc(Step(s, events[0]), events[1..], e);
      assert (events + [e])[1..] == events[1..] + [e];
    }
  }

  /** A worker is where it was; only a name it is about to store may have been overtaken. */
  predicate Stands(before: Worker, after: Worker) {
    after == before || (before.Storing? && after == before.(overtaken := true))
  }

  /** No event of another worker moves a worker on. */
  lemma OthersStand(s: Tiny, e: Event, w: nat)
    requires Enabled(s, e) && w < |s.workers| && !ActsOn(e, w)
    ensures w < |Step(s, e).workers| && Stands(s.workers[w], Step(s, e).workers[w])
  {
  }

  lemma WorkersStay(s: Tiny, e: Event)
    requires Enabled(s, e)
    ensures |s.workers| <= |Step(s, e).workers|
  {
  }
}

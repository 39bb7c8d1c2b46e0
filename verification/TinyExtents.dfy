/**
The extent store's tiny extents, as the goroutines of many connections and of the repair loop use them: taking an id,
giving it back, and moving ids between the queues. Between any two steps of a method the other goroutines may take any
number of their own.
*/
module TinyExtents {

  import opened TinyEvents

  const MIN_TINY_EXTENTS_TO_REPAIR := 10
  const MIN_AVAILABLE_TINY_EXTENTS := 5

  /** An id and the worker that has it. */
  datatype Take = Take(w: nat, id: nat)

  /** A write packet that took a tiny extent. */
  datatype Packet = Packet(take: Take, released: bool)

  /** What giving an id back does: it is sent and named, or dropped. */
  function GiveBack(w: nat, to: Queue, dropped: bool): seq<Event> {
    if dropped then [Load(w, to)] else [Load(w, to), Send(w), Store(w)]
  }

  /** The worker's part of the run went from `before` to `after` by giving its id back. */
  predicate GaveBack(before: seq<Event>, after: seq<Event>, w: nat, to: Queue) {
    after == before + GiveBack(w, to, true) || after == before + GiveBack(w, to, false)
  }

  predicate Distinct(takes: seq<Take>) { forall i, j :: 0 <= i < j < |takes| ==> takes[i].w != takes[j].w }

  function Workers(takes: seq<Take>): (ws: set<nat>)
    ensures forall t :: t in takes ==> t.w in ws
  {
    set t | t in takes :: t.w
  }

  class ExtentStore {
    var tiny: Tiny

    /** Every step since the store was opened. */
    ghost var history: seq<Event>

    ghost predicate Valid()
      reads this
    {
      CanRun(Created(), history) && tiny == Run(Created(), history) && NoneAhead(tiny, history)
    }

    /** The worker has the id. */
    predicate Has(t: Take)
      reads this
    {
      t.w < |tiny.workers| && tiny.workers[t.w] == Holding(t.id)
    }

    /** initTinyExtent. */
    constructor ()
      ensures Valid() && tiny == Created() && history == []
      ensures tiny.available.channel == [] && tiny.workers == [] && |tiny.broken.channel| == 64
      ensures forall i :: 0 <= i < 64 ==> tiny.broken.channel[i] == i + 1
    {
      tiny, history := Created(), [];
    }

    lemma Reached()
      requires Valid()
      ensures TinyInv(tiny)
    {
      hide Created, Run, TinyInv;
      CreatedTiny();
      RunKeepsTiny(Created(), history);
    }

    /** One step of a goroutine. */
    method Do(e: Event)
      requires Valid() && Enabled(tiny, e)
      modifies this
      ensures Valid() && tiny == Step(old(tiny), e) && |old(tiny.workers)| <= |tiny.workers|
      ensures forall w :: Acts(history, w) == old(Acts(history, w)) + if ActsOn(e, w) then [e] else []
      ensures forall w :: 0 <= w < |old(tiny.workers)| && !ActsOn(e, w) ==>
                Stands(old(tiny.workers)[w], tiny.workers[w])
    {
      hide Created, Run, CanRun, Step, Acts, ActsOn;
      RunSnoc(Created(), history, e);
      WorkersStay(tiny, e);
      forall w: nat ensures Acts(history + [e], w) == Acts(history, w) + if ActsOn(e, w) then [e] else [] {
        ActsSnoc(history, e, w);
      }
      forall w | 0 <= w < |tiny.workers| && !ActsOn(e, w)
        ensures Stands(tiny.workers[w], Step(tiny, e).workers[w])
      {
        OthersStand(tiny, e, w);
      }
      NoneAheadStep(tiny, history, e);
      tiny := Step(tiny, e);
      history := history + [e];
    }

    /** The workers stand where they stood, and did nothing. */
    twostate predicate Still(mine: set<nat>)
      reads this
    {
      && |old(tiny.workers)| <= |tiny.workers|
      && forall w :: w in mine && w < |old(tiny.workers)| ==>
           && Stands(old(tiny.workers)[w], tiny.workers[w])
           && Acts(history, w) == old(Acts(history, w))
    }

    /** What the other goroutines do meanwhile. */
    method Others(mine: set<nat>)
      requires Valid()
      modifies this
      ensures Valid() && Still(mine)
    {
      hide Created, Run, CanRun, Step, Acts;
      var n: nat :| true;
      for i := 0 to n
        invariant Valid() && Still(mine)
      {
        var e: Event :| true;
        if Enabled(tiny, e) && (e.Receive? || e.w !in mine) {
          Do(e);
        }
      }
    }

    /** GetAvailableTinyExtent and GetBrokenTinyExtent. */
    method Get(from: Queue, mine: set<nat>) returns (ok: bool, t: Take)
      requires Valid()
      modifies this
      ensures Valid() && Still(mine) && (ok <==> old(LaneOf(tiny, from).channel) != [])
      ensures ok ==> t == Take(|old(tiny.workers)|, old(LaneOf(tiny, from).channel)[0]) && Has(t)
      ensures ok ==> Acts(history, t.w) == [Delete(t.w)]
      ensures !ok ==> tiny == old(tiny) && history == old(history)
    {
      hide Created, Run, CanRun, Acts;
      var channel := LaneOf(tiny, from).channel;
      if channel == [] {
        return false, Take(0, 0);
      }
      ok, t := true, Take(|tiny.workers|, channel[0]);
      Do(Receive(from));
      Others(mine + {t.w});
      Do(Delete(t.w));
    }

    /** SendToAvailableTinyExtentC and SendToBrokenTinyExtentC. */
    method SendTo(to: Queue, t: Take, mine: set<nat>) returns (dropped: bool)
      requires Valid() && Has(t) && t.w !in mine
      modifies this
      ensures Valid() && Still(mine) && tiny.workers[t.w] == Done
      ensures dropped <==> t.id in old(LaneOf(tiny, to).late)
      ensures Acts(history, t.w) == old(Acts(history, t.w)) + GiveBack(t.w, to, dropped)
    {
      hide Created, Run, CanRun, Acts;
      Reached();
      DroppedIffLate(tiny, t.w, to);
      dropped := t.id in LaneOf(tiny, to).names;
      Do(Load(t.w, to));
      if !dropped {
        Others(mine + {t.w});
        Do(Send(t.w));
        Others(mine + {t.w});
        Do(Store(t.w));
      }
    }

    /** checkPacketAndPrepare: a tiny write takes an available extent. */
    method Prepare() returns (ok: bool, p: Packet)
      requires Valid()
      modifies this
      ensures Valid() && (ok <==> old(tiny.available.channel) != [])
      ensures ok ==> !p.released && p.take.id == old(tiny.available.channel)[0] && Has(p.take)
      ensures !ok ==> tiny == old(tiny) && history == old(history)
    {
      hide Created, Run, CanRun;
      var t;
      ok, t := Get(Available, {});
      p := Packet(t, false);
    }

    /** releaseExtent: however often it is called for a packet, the id is given back once. */
    method ReleaseExtent(p: Packet, failed: bool) returns (p': Packet, dropped: bool)
      requires Valid() && (p.released || Has(p.take))
      modifies this
      ensures Valid() && p' == Packet(p.take, true)
      ensures p.released ==> !dropped && tiny == old(tiny) && history == old(history)
      ensures !p.released ==>
                var to := if failed then Broken else Available;
                && Acts(history, p.take.w) == old(Acts(history, p.take.w)) + GiveBack(p.take.w, to, dropped)
                && (dropped <==> p.take.id in old(LaneOf(tiny, to).late))
    {
      hide Created, Run, CanRun, Acts;
      p', dropped := Packet(p.take, true), false;
      if p.released {
        return;
      }
      if failed {
        dropped := SendTo(Broken, p.take, {});
      } else {
        dropped := SendTo(Available, p.take, {});
      }
    }

    /** The worker took its id, gave it back to a queue and is done. */
    ghost predicate Passed(t: Take, to: Queue)
      reads this
    {
      && t.w < |tiny.workers| && tiny.workers[t.w] == Done
      && GaveBack([Delete(t.w)], Acts(history, t.w), t.w, to)
    }

    /**
    MoveAllToBrokenTinyExtentC: up to `cnt` ids go from the available queue to the broken one; fewer only when the
    available queue was found empty.
    */
    method MoveAllToBrokenTinyExtentC(cnt: int) returns (moved: seq<Take>)
      requires Valid()
      modifies this
      ensures Valid() && Distinct(moved) && |moved| <= (if cnt < 0 then 0 else cnt)
      ensures |moved| < cnt ==> tiny.available.channel == []
      ensures forall t :: t in moved ==> Passed(t, Broken)
    {
      hide Created, Run, CanRun, Acts;
      moved := [];
      var i := 0;
      while i < cnt
        invariant i == |moved| && (i == 0 || i <= cnt) && Valid() && Distinct(moved)
        invariant forall t :: t in moved ==> Passed(t, Broken)
      {
        Others(Workers(moved));
        var ok, t := Get(Available, Workers(moved));
        if !ok {
          return;
        }
        Others(Workers(moved) + {t.w});
        var _ := SendTo(Broken, t, Workers(moved));
        moved := moved + [t];
        i := i + 1;
      }
    }

    /** brokenTinyExtents: a repair round takes ten broken extents, or all 64 when no more than five are available. */
    method BrokenTinyExtents() returns (taken: seq<Take>)
      requires Valid()
      modifies this
      ensures Valid() && Distinct(taken) && |taken| <= if |old(tiny.available.channel)| <= 5 then 64 else 10
      ensures |taken| < (if |old(tiny.available.channel)| <= 5 then 64 else 10) ==> tiny.broken.channel == []
      ensures forall t :: t in taken ==> Has(t)
    {
      hide Created, Run, CanRun, Acts;
      taken := [];
      var extentsToBeRepaired := MIN_TINY_EXTENTS_TO_REPAIR;
      if |tiny.available.channel| <= MIN_AVAILABLE_TINY_EXTENTS {
        extentsToBeRepaired := TINY_EXTENT_COUNT;
      }
      var i := 0;
      while i < extentsToBeRepaired
        invariant i == |taken| <= extentsToBeRepaired && Valid() && Distinct(taken)
        invariant forall t :: t in taken ==> Has(t)
      {
        Others(Workers(taken));
        var ok, t := Get(Broken, Workers(taken));
        if !ok {
          return;
        }
        taken := taken + [t];
        i := i + 1;
      }
    }

    /** The worker gave its id back to a queue. */
    twostate predicate GivenTo(t: Take, to: Queue)
      reads this
    {
      && t.w < |tiny.workers| && tiny.workers[t.w] == Done
      && GaveBack(old(Acts(history, t.w)), Acts(history, t.w), t.w, to)
    }

    /** One id given back by a repair round. */
    method GiveOneBack(t: Take, to: Queue, mine: set<nat>)
      requires Valid() && Has(t) && t.w !in mine
      modifies this
      ensures Valid() && Still(mine) && GivenTo(t, to)
    {
      hide Created, Run, CanRun, Acts;
      Others(mine + {t.w});
      Reached();
      OnlyHere(tiny, t.w, to);
      if IsTinyExtent(t.id) {
        var _ := SendTo(to, t, mine);
      }
    }

    /** The ids of one list given back by a repair round. */
    method GiveAllBack(takes: seq<Take>, to: Queue, mine: set<nat>)
      requires Valid() && Distinct(takes) && Workers(takes) !! mine
      requires forall t :: t in takes ==> Has(t)
      modifies this
      ensures Valid() && Still(mine)
      ensures forall t :: t in takes ==> GivenTo(t, to)
    {
      hide Created, Run, CanRun, Acts, GiveBack;
      for i := 0 to |takes|
        invariant Valid() && Still(mine)
        invariant forall k :: 0 <= k < i ==> GivenTo(takes[k], to)
        invariant forall k :: i <= k < |takes| ==> Has(takes[k]) && Still({takes[k].w})
      {
        GiveOneBack(takes[i], to, mine + Workers(takes) - {takes[i].w});
      }
    }

    /**
    sendAllTinyExtentsToC, at the end of a repair round: the ids reported good and bad go back; what the round took and
    nobody reported stays with the worker.
    */
    method SendAllTinyExtentsToC(good: seq<Take>, bad: seq<Take>, mine: set<nat>)
      requires Valid() && Distinct(good + bad) && Workers(good + bad) !! mine
      requires forall t :: t in good + bad ==> Has(t)
      modifies this
      ensures Valid() && Still(mine)
      ensures forall t :: t in good ==> GivenTo(t, Available)
      ensures forall t :: t in bad ==> GivenTo(t, Broken)
    {
      hide Created, Run, CanRun, Acts, GaveBack, Distinct, Workers;
      Apart(good, bad);
      assert forall t :: t in bad ==> t in good + bad && t.w in Workers(bad);
      assert forall t :: t in good ==> t in good + bad && t.w in Workers(good);
      GiveAllBack(good, Available, mine + Workers(bad));
      GiveAllBack(bad, Broken, mine + Workers(good));
    }
  }

  lemma Apart(good: seq<Take>, bad: seq<Take>)
    requires Distinct(good + bad)
    ensures Distinct(good) && Distinct(bad) && Workers(good) !! Workers(bad)
    ensures Workers(good + bad) == Workers(good) + Workers(bad)
  {
    var all := good + bad;
    assert forall i :: 0 <= i < |good| ==> all[i] == good[i];
    assert forall i :: 0 <= i < |bad| ==> all[|good| + i] == bad[i];
  }

  /** Nobody acts on a worker before it exists. */
  ghost predicate NoneAhead(s: Tiny, run: seq<Event>) { forall w :: w >= |s.workers| ==> Acts(run, w) == [] }

  lemma NoneAheadStep(s: Tiny, run: seq<Event>, e: Event)
    requires NoneAhead(s, run) && Enabled(s, e)
    ensures NoneAhead(Step(s, e), run + [e])
  {
    hide Acts;
    WorkersStay(s, e);
    forall w | w >= |Step(s, e).workers| ensures Acts(run + [e], w) == [] {
      ActsSnoc(run, e, w);
    }
  }
}

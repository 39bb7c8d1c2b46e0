/**
When giving a tiny extent back loses it, said of the run alone: a name is stored late when a taker deleted it between
the send and the store.
*/
module TinyRaces {

  import opened TinyEvents

  /** The i-th event is the worker sending the id to the queue. */
  predicate SentAt(s: Tiny, run: seq<Event>, i: nat, w: nat, q: Queue, id: nat) {
    && i < |run| && run[i] == Send(w) && CanRun(s, run[..i])
    && w < |Run(s, run[..i]).workers| && Run(s, run[..i]).workers[w] == Clear(q, id)
  }

  /** The i-th event is a taker deleting the name of the id from the queue's map. */
  predicate DeletedAt(s: Tiny, run: seq<Event>, i: nat, q: Queue, id: nat) {
    && i < |run| && run[i].Delete? && CanRun(s, run[..i])
    && run[i].w < |Run(s, run[..i]).workers| && Run(s, run[..i]).workers[run[i].w] == Received(q, id)
  }

  predicate TakenBetween(s: Tiny, run: seq<Event>, w: nat, q: Queue, id: nat, i: nat, d: nat) {
    i < d && SentAt(s, run, i, w, q, id) && DeletedAt(s, run, d, q, id)
  }

  /** A worker stored the name after a taker had deleted it, and nobody deleted it since. */
  predicate StoredLate(s: Tiny, run: seq<Event>, q: Queue, id: nat, w: nat, i: nat, d: nat, j: nat) {
    && d < j < |run| && TakenBetween(s, run, w, q, id, i, d) && run[j] == Store(w)
    && forall k :: j < k < |run| ==> !DeletedAt(s, run, k, q, id)
  }

  // ---------------------------------------------------------------- a run and its last event

  lemma Shorter(s: Tiny, run: seq<Event>, e: Event, i: nat, w: nat, q: Queue, id: nat)
    requires i < |run|
    ensures SentAt(s, run + [e], i, w, q, id) <==> SentAt(s, run, i, w, q, id)
    ensures DeletedAt(s, run + [e], i, q, id) <==> DeletedAt(s, run, i, q, id)
  {
    assert (run + [e])[..i] == run[..i];
  }

  lemma Last(s: Tiny, run: seq<Event>, e: Event, w: nat, q: Queue, id: nat)
    requires CanRun(s, run)
    ensures var at := Run(s, run);
            && (SentAt(s, run + [e], |run|, w, q, id) <==>
                  e == Send(w) && w < |at.workers| && at.workers[w] == Clear(q, id))
            && (DeletedAt(s, run + [e], |run|, q, id) <==>
                  e.Delete? && e.w < |at.workers| && at.workers[e.w] == Received(q, id))
  {
    assert (run + [e])[..|run|] == run;
  }

  lemma {:induction false} Split(s: Tiny, run: seq<Event>)
    requires CanRun(s, run) && run != []
    ensures var n := |run| - 1;
            && CanRun(s, run[..n]) && Enabled(Run(s, run[..n]), run[n])
            && Run(s, run) == Step(Run(s, run[..n]), run[n])
    decreases |run|
  {
    var n := |run| - 1;
    if n > 0 {
      Split(Step(s, run[0]), run[1..]);
      assert run[1..][..n - 1] == run[..n][1..];
    }
  }

  // ---------------------------------------------------------------- one step

  predicate Deletes(s: Tiny, e: Event, q: Queue, id: nat)
    requires Enabled(s, e)
  {
    e.Delete? && s.workers[e.w] == Received(q, id)
  }

  lemma StepStoring(s: Tiny, e: Event, w: nat)
    requires Enabled(s, e) && w < |s.workers| && s.workers[w].Storing?
    ensures w < |Step(s, e).workers|
    ensures var before, after := s.workers[w], Step(s, e).workers[w];
            if e == Store(w) then after == Done
            else after == before.(overtaken := before.overtaken || Deletes(s, e, before.q, before.id))
  {
  }

  lemma StepToStoring(s: Tiny, e: Event, w: nat)
    requires Enabled(s, e) && w < |Step(s, e).workers| && Step(s, e).workers[w].Storing?
    ensures w < |s.workers|
    ensures !s.workers[w].Storing? ==>
              var after := Step(s, e).workers[w];
              e == Send(w) && s.workers[w] == Clear(after.q, after.id) && !after.overtaken
  {
  }

  lemma StepDone(s: Tiny, e: Event, w: nat)
    requires Enabled(s, e) && w < |s.workers| && s.workers[w] == Done
    ensures w < |Step(s, e).workers| && Step(s, e).workers[w] == Done
  {
  }

  lemma StepLate(s: Tiny, e: Event, q: Queue, id: nat)
    requires Enabled(s, e)
    ensures id in LaneOf(Step(s, e), q).late <==>
              || (e.Store? && s.workers[e.w] == Storing(q, id, true))
              || (id in LaneOf(s, q).late && !Deletes(s, e, q, id))
  {
  }

  // ---------------------------------------------------------------- whole runs

  predicate StoresOrDone(s: Tiny, w: nat, q: Queue, id: nat) {
    w < |s.workers| && (s.workers[w] == Done || (exists b :: s.workers[w] == Storing(q, id, b)))
  }

  /** What was sent is about to be named, or was. */
  lemma {:induction false} SentStays(s: Tiny, run: seq<Event>, i: nat, w: nat, q: Queue, id: nat)
    requires CanRun(s, run) && SentAt(s, run, i, w, q, id)
    ensures StoresOrDone(Run(s, run), w, q, id)
    decreases |run|
  {
    hide CanRun, Run, SentAt, Step;
    SentBefore(s, run, i, w, q, id);
    Split(s, run);
    var n := |run| - 1;
    var pre, e := run[..n], run[n];
    assert run == pre + [e];
    var at := Run(s, pre);
    if i < n {
      Shorter(s, pre, e, i, w, q, id);
      SentStays(s, pre, i, w, q, id);
      if at.workers[w] == Done {
        StepDone(at, e, w);
      } else {
        StepStoring(at, e, w);
      }
    } else {
      LastSent(s, run, w, q, id);
    }
  }

  lemma LastSent(s: Tiny, run: seq<Event>, w: nat, q: Queue, id: nat)
    requires CanRun(s, run) && run != [] && SentAt(s, run, |run| - 1, w, q, id)
    ensures w < |Run(s, run).workers| && Run(s, run).workers[w] == Storing(q, id, false)
  {
    hide CanRun, Run;
    Split(s, run);
  }

  /** What is about to be named was sent. */
  lemma {:induction false} WasSent(s: Tiny, run: seq<Event>, w: nat) returns (i: nat)
    requires CanRun(s, run) && s.workers == [] && w < |Run(s, run).workers| && Run(s, run).workers[w].Storing?
    ensures SentAt(s, run, i, w, Run(s, run).workers[w].q, Run(s, run).workers[w].id)
    decreases |run|
  {
    if run == [] {
      assert false;
    } else {
      hide CanRun, Run, SentAt, Step;
      Split(s, run);
      var n := |run| - 1;
      var pre, e := run[..n], run[n];
      assert run == pre + [e];
      var at, now := Run(s, pre), Run(s, run).workers[w];
      StepToStoring(at, e, w);
      if at.workers[w].Storing? {
        StepStoring(at, e, w);
        i := WasSent(s, pre, w);
        Shorter(s, pre, e, i, w, now.q, now.id);
      } else {
        i := n;
        Last(s, pre, e, w, now.q, now.id);
      }
    }
  }

  lemma {:induction false} WasOvertaken(s: Tiny, run: seq<Event>, w: nat, q: Queue, id: nat) returns (i: nat, d: nat)
    requires CanRun(s, run) && s.workers == []
    requires w < |Run(s, run).workers| && Run(s, run).workers[w] == Storing(q, id, true)
    ensures TakenBetween(s, run, w, q, id, i, d)
    decreases |run|
  {
    if run == [] {
      assert false;
    } else {
      hide CanRun, Run, SentAt, DeletedAt, Step;
      Split(s, run);
      var n := |run| - 1;
      var pre, e := run[..n], run[n];
      assert run == pre + [e];
      var at := Run(s, pre);
      StepToStoring(at, e, w);
      StepStoring(at, e, w);
      if at.workers[w].overtaken {
        i, d := WasOvertaken(s, pre, w, q, id);
        Earlier(s, pre, e, i, d, w, q, id);
      } else {
        i := WasSent(s, pre, w);
        d := n;
        Shorter(s, pre, e, i, w, q, id);
        Last(s, pre, e, w, q, id);
        SentBefore(s, pre, i, w, q, id);
      }
    }
  }

  lemma SentBefore(s: Tiny, run: seq<Event>, i: nat, w: nat, q: Queue, id: nat)
    requires SentAt(s, run, i, w, q, id)
    ensures i < |run|
  {
  }

  lemma Earlier(s: Tiny, run: seq<Event>, e: Event, i: nat, d: nat, w: nat, q: Queue, id: nat)
    requires d < |run|
    ensures TakenBetween(s, run + [e], w, q, id, i, d) <==> TakenBetween(s, run, w, q, id, i, d)
  {
    hide SentAt, DeletedAt;
    if i < d {
      Shorter(s, run, e, i, w, q, id);
    }
    Shorter(s, run, e, d, w, q, id);
  }

  lemma {:induction false} TakenOvertakes(s: Tiny, run: seq<Event>, w: nat, q: Queue, id: nat, i: nat, d: nat)
    requires CanRun(s, run) && TakenBetween(s, run, w, q, id, i, d)
    requires w < |Run(s, run).workers| && Run(s, run).workers[w].Storing?
    ensures Run(s, run).workers[w].overtaken
    decreases |run|
  {
    hide CanRun, Run, SentAt, DeletedAt, Step;
    DeletedBefore(s, run, d, q, id);
    Split(s, run);
    var n := |run| - 1;
    var pre, e := run[..n], run[n];
    assert run == pre + [e];
    var at := Run(s, pre);
    Shorter(s, pre, e, i, w, q, id);
    SentStays(s, pre, i, w, q, id);
    if at.workers[w] == Done {
      StepDone(at, e, w);
    } else {
      StepStoring(at, e, w);
      if d < n {
        Earlier(s, pre, e, i, d, w, q, id);
        TakenOvertakes(s, pre, w, q, id, i, d);
      } else {
        Last(s, pre, e, w, q, id);
      }
    }
  }

  lemma DeletedBefore(s: Tiny, run: seq<Event>, i: nat, q: Queue, id: nat)
    requires DeletedAt(s, run, i, q, id)
    ensures i < |run|
  {
  }

  lemma {:induction false} LateWasStored(s: Tiny, run: seq<Event>, q: Queue, id: nat)
    returns (w: nat, i: nat, d: nat, j: nat)
    requires CanRun(s, run) && s.workers == [] && LaneOf(s, q).late == {} && id in LaneOf(Run(s, run), q).late
    ensures StoredLate(s, run, q, id, w, i, d, j)
    decreases |run|
  {
    if run == [] {
      assert false;
    } else {
      hide CanRun, Run, SentAt, DeletedAt, Step;
      Split(s, run);
      var n := |run| - 1;
      var pre, e := run[..n], run[n];
      assert run == pre + [e];
      var at := Run(s, pre);
      StepLate(at, e, q, id);
      Last(s, pre, e, 0, q, id);
      if id in LaneOf(at, q).late && !Deletes(at, e, q, id) {
        w, i, d, j := LateWasStored(s, pre, q, id);
        StillLate(s, pre, e, q, id, w, i, d, j);
      } else {
        w := e.w;
        i, d := WasOvertaken(s, pre, w, q, id);
        DeletedBefore(s, pre, d, q, id);
        Earlier(s, pre, e, i, d, w, q, id);
        j := n;
      }
    }
  }

  lemma StillLate(s: Tiny, run: seq<Event>, e: Event, q: Queue, id: nat, w: nat, i: nat, d: nat, j: nat)
    requires j < |run|
    ensures StoredLate(s, run + [e], q, id, w, i, d, j) <==>
              StoredLate(s, run, q, id, w, i, d, j) && !DeletedAt(s, run + [e], |run|, q, id)
  {
    hide SentAt, DeletedAt;
    if d < j {
      Earlier(s, run, e, i, d, w, q, id);
    }
    forall k | j < k < |run| ensures DeletedAt(s, run + [e], k, q, id) <==> DeletedAt(s, run, k, q, id) {
      Shorter(s, run, e, k, w, q, id);
    }
  }

  lemma {:induction false} StoredLateIsLate(
    s: Tiny, run: seq<Event>, q: Queue, id: nat, w: nat, i: nat, d: nat, j: nat)
    requires CanRun(s, run) && StoredLate(s, run, q, id, w, i, d, j)
    ensures id in LaneOf(Run(s, run), q).late
    decreases |run|
  {
    hide CanRun, Run, SentAt, DeletedAt, Step;
    Split(s, run);
    var n := |run| - 1;
    var pre, e := run[..n], run[n];
    assert run == pre + [e];
    var at := Run(s, pre);
    StepLate(at, e, q, id);
    if j < n {
      StillLate(s, pre, e, q, id, w, i, d, j);
      StoredLateIsLate(s, pre, q, id, w, i, d, j);
      Last(s, pre, e, w, q, id);
    } else {
      Earlier(s, pre, e, i, d, w, q, id);
      Shorter(s, pre, e, i, w, q, id);
      SentStays(s, pre, i, w, q, id);
      TakenOvertakes(s, pre, w, q, id, i, d);
    }
  }

  /**
  Over every run of a new store, giving an id back drops it exactly when some worker stored the id's name in that queue
  after a taker had run between its send and its store, and nobody took the id from the queue since.
  */
  lemma DroppedIffTakenBetween(run: seq<Event>, w: nat, q: Queue)
    requires CanRun(Created(), run) && Enabled(Run(Created(), run), Load(w, q))
    ensures var s := Run(Created(), run);
            Step(s, Load(w, q)).workers[w] == Done <==>
            exists v, i, d, j :: StoredLate(Created(), run, q, s.workers[w].id, v, i, d, j)
  {
    hide CanRun, Run, StoredLate, TinyInv, FirstIds;
    var s := Run(Created(), run);
    var id := s.workers[w].id;
    CreatedTiny();
    RunKeepsTiny(Created(), run);
    DroppedIffLate(s, w, q);
    if id in LaneOf(s, q).late {
      var v, i, d, j := LateWasStored(Created(), run, q, id);
    }
    if v, i, d, j :| StoredLate(Created(), run, q, id, v, i, d, j) {
      StoredLateIsLate(Created(), run, q, id, v, i, d, j);
    }
  }
}

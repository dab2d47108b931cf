/** The purge run by any number of workers at once, without any lock between them.

    Each round of a worker is one transaction that chooses ids and then deletes them;
    other workers may remove the same rows in between. Rows written meanwhile are newer
    than the cutoff. */
module ExpiredLogWorkers {
  import opened Sets
  import opened ExpiredLogs

  datatype Phase = Ready | Chosen(ids: set<int>) | Returned

  /** `deleted` is what the worker will report; `rounds` counts its full chunks. */
  datatype Worker = Worker(phase: Phase, deleted: nat, rounds: nat)

  datatype State = State(rows: Rows, workers: seq<Worker>, removed: set<int>)

  datatype Event =
    | Choose(w: nat, ids: set<int>)
    | Delete(w: nat)
    | Write(id: int, at: int)

  /** What stays the same during a purge. */
  datatype Purge = Purge(cutoff: int, chunkSize: nat, start: Rows)

  ghost predicate Enabled(p: Purge, s: State, e: Event) {
    match e
    case Choose(w, ids) =>
      w < |s.workers| && s.workers[w].phase.Ready? && IsChunk(ids, Expired(s.rows, p.cutoff), p.chunkSize)
    case Delete(w) => w < |s.workers| && s.workers[w].phase.Chosen?
    case Write(id, at) => id !in s.rows && id !in s.removed && p.cutoff <= at
  }

  ghost function Next(p: Purge, s: State, e: Event): State
    requires Enabled(p, s, e)
  {
    match e
    case Choose(w, ids) => s.(workers := s.workers[w := s.workers[w].(phase := Chosen(ids))])
    case Delete(w) =>
      var worker := s.workers[w];
      var hit := Hit(worker.phase.ids, s.rows);
      var last := |worker.phase.ids| < p.chunkSize;
      State(
        s.rows - worker.phase.ids,
        s.workers[w := Worker(
          if last then Returned else Ready,
          worker.deleted + |hit|,
          worker.rounds + if last then 0 else 1)],
        s.removed + hit)
    case Write(id, at) => s.(rows := s.rows[id := at])
  }

  function Reported(workers: seq<Worker>): nat {
    if workers == [] then 0 else workers[0].deleted + Reported(workers[1..])
  }

  lemma {:induction false} ReportedAfter(workers: seq<Worker>, w: nat, worker: Worker)
    requires w < |workers|
    ensures Reported(workers[w := worker]) == Reported(workers) - workers[w].deleted + worker.deleted
  {
    if w == 0 {
      assert workers[w := worker][1..] == workers[1..];
    } else {
      assert workers[w := worker][1..] == workers[1..][w - 1 := worker];
      ReportedAfter(workers[1..], w - 1, worker);
    }
  }

  // ------------------------------------------------------------ the invariant

  /** Removed rows were expired when the purge began; all others are still there unchanged. */
  ghost predicate RowsAccounted(p: Purge, s: State) {
    && s.removed <= Expired(p.start, p.cutoff)
    && s.removed !! s.rows.Keys
    && (forall id :: id in p.start ==> id in s.removed || (id in s.rows && s.rows[id] == p.start[id]))
    && Expired(s.rows, p.cutoff) <= Expired(p.start, p.cutoff)
  }

  /** Ids a worker has chosen are expired or gone; a chunk that is not full had them all. */
  ghost predicate ChoiceIsRight(p: Purge, s: State, worker: Worker) {
    match worker.phase
    case Ready => true
    case Chosen(ids) =>
      && ids <= Expired(s.rows, p.cutoff) + s.removed
      && (|ids| < p.chunkSize ==> Expired(s.rows, p.cutoff) <= ids)
    case Returned => Expired(s.rows, p.cutoff) == {}
  }

  /** How many rows so many full chunks hold. */
  ghost function InFull(rounds: nat, chunkSize: nat): nat {
    if rounds == 0 then 0 else InFull(rounds - 1, chunkSize) + chunkSize
  }

  lemma {:induction false} InFullIsTheProduct(rounds: nat, chunkSize: nat)
    ensures InFull(rounds, chunkSize) == rounds * chunkSize
  {
    if rounds > 0 {
      InFullIsTheProduct(rounds - 1, chunkSize);
    }
  }

  /** The rows a worker's remaining full rounds must come out of. */
  ghost function Supply(p: Purge, s: State, worker: Worker): set<int> {
    if worker.phase.Chosen? then Expired(s.rows, p.cutoff) + worker.phase.ids else Expired(s.rows, p.cutoff)
  }

  ghost predicate RoundsArePaidFor(p: Purge, s: State, worker: Worker) {
    InFull(worker.rounds, p.chunkSize) + |Supply(p, s, worker)| <= |Expired(p.start, p.cutoff)|
  }

  ghost predicate Inv(p: Purge, s: State) {
    && RowsAccounted(p, s)
    && Reported(s.workers) == |s.removed|
    && (forall w :: 0 <= w < |s.workers| ==> ChoiceIsRight(p, s, s.workers[w]))
    && (forall w :: 0 <= w < |s.workers| ==> RoundsArePaidFor(p, s, s.workers[w]))
  }

  ghost predicate Initial(p: Purge, s: State) {
    && s.rows == p.start && s.removed == {}
    && (forall w :: 0 <= w < |s.workers| ==> s.workers[w] == Worker(Ready, 0, 0))
  }

  lemma {:induction false} NothingReported(workers: seq<Worker>)
    requires forall w :: 0 <= w < |workers| ==> workers[w].deleted == 0
    ensures Reported(workers) == 0
  {
    if workers != [] {
      NothingReported(workers[1..]);
    }
  }

  lemma InitialHasInv(p: Purge, s: State)
    requires Initial(p, s)
    ensures Inv(p, s)
  {
    NothingReported(s.workers);
    forall w | 0 <= w < |s.workers| ensures RoundsArePaidFor(p, s, s.workers[w]) {
      assert Supply(p, s, s.workers[w]) == Expired(p.start, p.cutoff);
    }
  }

  lemma ChooseKeepsWorker(p: Purge, s: State, w: nat, ids: set<int>, v: nat)
    requires Inv(p, s) && Enabled(p, s, Choose(w, ids)) && v < |s.workers|
    ensures var t := Next(p, s, Choose(w, ids));
            ChoiceIsRight(p, t, t.workers[v]) && RoundsArePaidFor(p, t, t.workers[v])
  {
    var t := Next(p, s, Choose(w, ids));
    assert ChoiceIsRight(p, s, s.workers[v]) && RoundsArePaidFor(p, s, s.workers[v]);
    if v == w {
      if |ids| < p.chunkSize {
        SubsetOfSameSize(ids, Expired(s.rows, p.cutoff));
      }
      assert Supply(p, t, t.workers[v]) == Supply(p, s, s.workers[v]);
    }
  }

  lemma ChooseKeepsInv(p: Purge, s: State, w: nat, ids: set<int>)
    requires Inv(p, s) && Enabled(p, s, Choose(w, ids))
    ensures Inv(p, Next(p, s, Choose(w, ids)))
  {
    var t := Next(p, s, Choose(w, ids));
    ReportedAfter(s.workers, w, t.workers[w]);
    forall v: nat | v < |t.workers|
      ensures ChoiceIsRight(p, t, t.workers[v]) && RoundsArePaidFor(p, t, t.workers[v])
    {
      ChooseKeepsWorker(p, s, w, ids, v);
    }
  }

  lemma WriteKeepsExpired(p: Purge, s: State, id: int, at: int)
    requires Enabled(p, s, Write(id, at))
    ensures Expired(Next(p, s, Write(id, at)).rows, p.cutoff) == Expired(s.rows, p.cutoff)
  {
  }

  lemma WriteKeepsInv(p: Purge, s: State, id: int, at: int)
    requires Inv(p, s) && Enabled(p, s, Write(id, at))
    ensures Inv(p, Next(p, s, Write(id, at)))
  {
    var t := Next(p, s, Write(id, at));
    WriteKeepsExpired(p, s, id, at);
    WriteKeepsRows(p, s, id, at);
    forall v | 0 <= v < |t.workers|
      ensures ChoiceIsRight(p, t, t.workers[v]) && RoundsArePaidFor(p, t, t.workers[v])
    {
      assert ChoiceIsRight(p, s, s.workers[v]) && RoundsArePaidFor(p, s, s.workers[v]);
    }
  }

  lemma WriteKeepsRows(p: Purge, s: State, id: int, at: int)
    requires RowsAccounted(p, s) && Enabled(p, s, Write(id, at))
    ensures RowsAccounted(p, Next(p, s, Write(id, at)))
  {
  }

  lemma ExpiredAfterDelete(p: Purge, s: State, ids: set<int>)
    ensures Expired(s.rows - ids, p.cutoff) == Expired(s.rows, p.cutoff) - ids
  {
  }

  lemma DeleteKeepsRows(p: Purge, s: State, ids: set<int>, workers: seq<Worker>)
    requires RowsAccounted(p, s) && ids <= Expired(s.rows, p.cutoff) + s.removed
    ensures RowsAccounted(p, State(s.rows - ids, workers, s.removed + Hit(ids, s.rows)))
    ensures Expired(s.rows - ids, p.cutoff) == Expired(s.rows, p.cutoff) - ids
    ensures |s.removed + Hit(ids, s.rows)| == |s.removed| + |Hit(ids, s.rows)|
  {
    ExpiredAfterDelete(p, s, ids);
    var hit, t := Hit(ids, s.rows), State(s.rows - ids, workers, s.removed + Hit(ids, s.rows));
    assert hit !! s.removed;
    assert hit <= Expired(s.rows, p.cutoff);
    forall id | id in p.start ensures id in t.removed || (id in t.rows && t.rows[id] == p.start[id]) {
      assert id in s.removed || id in s.rows;
    }
  }

  lemma DeleteKeepsChoice(p: Purge, s: State, w: nat, v: nat)
    requires Inv(p, s) && Enabled(p, s, Delete(w)) && v < |s.workers|
    ensures ChoiceIsRight(p, Next(p, s, Delete(w)), Next(p, s, Delete(w)).workers[v])
  {
  }

  lemma DeleteKeepsOthersRounds(p: Purge, s: State, w: nat, v: nat)
    requires Inv(p, s) && Enabled(p, s, Delete(w)) && v < |s.workers| && v != w
    ensures RoundsArePaidFor(p, Next(p, s, Delete(w)), s.workers[v])
  {
    var t := Next(p, s, Delete(w));
    assert ChoiceIsRight(p, s, s.workers[w]) && RoundsArePaidFor(p, s, s.workers[v]);
    DeleteKeepsRows(p, s, s.workers[w].phase.ids, t.workers);
    SubsetIsNoLarger(Supply(p, t, s.workers[v]), Supply(p, s, s.workers[v]));
  }

  lemma SupplyAfterDelete(rows: Rows, cutoff: int, ids: set<int>)
    ensures |Expired(rows - ids, cutoff)| + |ids| == |Expired(rows, cutoff) + ids|
  {
    assert Expired(rows - ids, cutoff) == Expired(rows, cutoff) + ids - ids;
    SizeOfDifference(Expired(rows, cutoff) + ids, ids);
  }

  lemma DeleteKeepsOwnRounds(p: Purge, s: State, w: nat)
    requires Enabled(p, s, Delete(w)) && RoundsArePaidFor(p, s, s.workers[w])
    ensures RoundsArePaidFor(p, Next(p, s, Delete(w)), Next(p, s, Delete(w)).workers[w])
  {
    SupplyAfterDelete(s.rows, p.cutoff, s.workers[w].phase.ids);
  }

  lemma StepKeepsInv(p: Purge, s: State, e: Event)
    requires Inv(p, s) && Enabled(p, s, e)
    ensures Inv(p, Next(p, s, e))
  {
    match e
    case Choose(w, ids) => ChooseKeepsInv(p, s, w, ids);
    case Delete(w) =>
      assert ChoiceIsRight(p, s, s.workers[w]);
      DeleteKeepsRows(p, s, s.workers[w].phase.ids, Next(p, s, e).workers);
      ReportedAfter(s.workers, w, Next(p, s, e).workers[w]);
      forall v: nat | v < |s.workers|
        ensures ChoiceIsRight(p, Next(p, s, e), Next(p, s, e).workers[v])
        ensures RoundsArePaidFor(p, Next(p, s, e), Next(p, s, e).workers[v])
      {
        DeleteKeepsChoice(p, s, w, v);
        if v == w {
          DeleteKeepsOwnRounds(p, s, w);
        } else {
          DeleteKeepsOthersRounds(p, s, w, v);
        }
      }
    case Write(id, at) => WriteKeepsInv(p, s, id, at);
  }

  // ------------------------------------------------------------ whole runs

  ghost predicate RunsTo(p: Purge, s: State, events: seq<Event>, t: State)
    decreases |events|
  {
    if events == [] then s == t
    else Enabled(p, s, events[0]) && RunsTo(p, Next(p, s, events[0]), events[1..], t)
  }

  lemma {:induction false} RunKeepsInv(p: Purge, s: State, events: seq<Event>, t: State)
    requires Inv(p, s) && RunsTo(p, s, events, t)
    ensures Inv(p, t)
    decreases |events|
  {
    if events != [] {
      StepKeepsInv(p, s, events[0]);
      RunKeepsInv(p, Next(p, s, events[0]), events[1..], t);
    }
  }

  /** The counts of all workers add up to exactly the rows that are gone, and no row at or
      after the cutoff is touched. */
  lemma CountsAddUp(p: Purge, s: State, events: seq<Event>, t: State)
    requires Initial(p, s) && RunsTo(p, s, events, t)
    ensures Reported(t.workers) == |p.start.Keys - t.rows.Keys|
    ensures forall id :: id in p.start && p.start[id] >= p.cutoff ==> id in t.rows && t.rows[id] == p.start[id]
  {
    InitialHasInv(p, s);
    RunKeepsInv(p, s, events, t);
    RemovedAreMissing(p, t);
  }

  lemma RemovedAreMissing(p: Purge, s: State)
    requires RowsAccounted(p, s)
    ensures p.start.Keys - s.rows.Keys == s.removed
    ensures forall id :: id in p.start && p.start[id] >= p.cutoff ==> id in s.rows && s.rows[id] == p.start[id]
  {
    forall id | id in p.start.Keys - s.rows.Keys ensures id in s.removed {
      assert id in p.start;
    }
    forall id | id in s.removed ensures id in p.start.Keys - s.rows.Keys {
      assert id in Expired(p.start, p.cutoff);
    }
  }

  /** When any worker returns, no expired row is left, whoever removed the rest. */
  lemma NoneLeftWhenOneReturns(p: Purge, s: State, events: seq<Event>, t: State, w: nat)
    requires Initial(p, s) && RunsTo(p, s, events, t)
    requires w < |t.workers| && t.workers[w].phase.Returned?
    ensures forall id :: id in t.rows ==> p.cutoff <= t.rows[id]
  {
    InitialHasInv(p, s);
    RunKeepsInv(p, s, events, t);
    assert ChoiceIsRight(p, t, t.workers[w]);
    forall id | id in t.rows ensures p.cutoff <= t.rows[id] {
      assert id !in Expired(t.rows, p.cutoff);
    }
  }

  /** No worker goes around more often than the expired rows fill chunks: with a chunk size
      of at least one every worker's loop ends. */
  lemma RoundsAreBounded(p: Purge, s: State, events: seq<Event>, t: State, w: nat)
    requires Initial(p, s) && RunsTo(p, s, events, t) && w < |t.workers|
    ensures t.workers[w].rounds * p.chunkSize <= |Expired(p.start, p.cutoff)|
  {
    InitialHasInv(p, s);
    RunKeepsInv(p, s, events, t);
    assert RoundsArePaidFor(p, t, t.workers[w]);
    InFullIsTheProduct(t.workers[w].rounds, p.chunkSize);
  }

  lemma {:induction false} RunsOn(p: Purge, s: State, events: seq<Event>, m: State, e: Event)
    requires RunsTo(p, s, events, m) && Enabled(p, m, e)
    ensures RunsTo(p, s, events + [e], Next(p, m, e))
    decreases |events|
  {
    if events == [] {
      assert [e][1..] == [] && events + [e] == [e];
      assert RunsTo(p, Next(p, m, e), [], Next(p, m, e));
    } else {
      assert (events + [e])[1..] == events[1..] + [e];
      RunsOn(p, Next(p, s, events[0]), events[1..], m, e);
    }
  }

  lemma {:induction false} RunsCompose(p: Purge, s: State, first: seq<Event>, m: State, second: seq<Event>, t: State)
    requires RunsTo(p, s, first, m) && RunsTo(p, m, second, t)
    ensures RunsTo(p, s, first + second, t)
    decreases |first|
  {
    if first == [] {
      assert first + second == second;
    } else {
      assert (first + second)[1..] == first[1..] + second;
      RunsCompose(p, Next(p, s, first[0]), first[1..], m, second, t);
    }
  }

  /** One undisturbed round uses up a chunk of expired rows, or ends the worker. */
  lemma OneRound(p: Purge, s: State, w: nat) returns (events: seq<Event>, t: State)
    requires w < |s.workers| && s.workers[w].phase.Ready?
    ensures RunsTo(p, s, events, t) && |t.workers| == |s.workers|
    ensures t.workers[w].phase.Returned? || t.workers[w].phase.Ready?
    ensures t.workers[w].phase.Ready? ==> |Expired(t.rows, p.cutoff)| + p.chunkSize <= |Expired(s.rows, p.cutoff)|
  {
    var ids := SomeChunk(Expired(s.rows, p.cutoff), p.chunkSize);
    assert RunsTo(p, s, [], s);
    RunsOn(p, s, [], s, Choose(w, ids));
    var m := Next(p, s, Choose(w, ids));
    RunsOn(p, s, [] + [Choose(w, ids)], m, Delete(w));
    events, t := [] + [Choose(w, ids)] + [Delete(w)], Next(p, m, Delete(w));
    ChunkDeleted(s.rows, p.cutoff, p.chunkSize, ids, {});
    assert s.rows - {} == s.rows;
  }

  /** A worker left alone comes to its end, from any state. */
  lemma {:induction false} AWorkerCanFinish(p: Purge, s: State, w: nat) returns (events: seq<Event>, t: State)
    requires p.chunkSize >= 1 && w < |s.workers| && s.workers[w].phase.Ready?
    ensures RunsTo(p, s, events, t) && w < |t.workers| && t.workers[w].phase.Returned?
    decreases |Expired(s.rows, p.cutoff)|
  {
    events, t := OneRound(p, s, w);
    if t.workers[w].phase.Ready? {
      var m := t;
      var rest;
      rest, t := AWorkerCanFinish(p, m, w);
      RunsCompose(p, s, events, m, rest, t);
      events := events + rest;
    }
  }

  ghost predicate NoneReturned(s: State) {
    forall w :: 0 <= w < |s.workers| ==> !s.workers[w].phase.Returned?
  }

  lemma ZeroChunkStep(p: Purge, s: State, e: Event)
    requires p.chunkSize == 0 && Enabled(p, s, e) && NoneReturned(s)
    ensures NoneReturned(Next(p, s, e))
  {
  }

  /** With a chunk size of zero no worker ever returns. */
  lemma {:induction false} ZeroChunksNeverReturn(p: Purge, s: State, events: seq<Event>, t: State)
    requires p.chunkSize == 0 && RunsTo(p, s, events, t) && NoneReturned(s)
    ensures NoneReturned(t)
    decreases |events|
  {
    if events != [] {
      ZeroChunkStep(p, s, events[0]);
      ZeroChunksNeverReturn(p, Next(p, s, events[0]), events[1..], t);
    }
  }
}

/** Many workers checking proofs and recording them at once.

    A request is one transaction with these steps: the verifier reads the clock and checks the
    window; the clock is read again for the sweep; the sweep runs; the INSERT runs; the rest of
    the request ends well or is rolled back. Other requests come in between anywhere, except
    that a statement waits for the rows that another open transaction swept or inserted. */
module DpopReplayConcurrency {
  import opened Wrappers
  import opened DpopReplay

  /** One request's proof: its replay key, its iat claim, the moment the verifier made of the
      claim, and the verifier's clock. */
  datatype Proof = Proof(key: string, claim: Claim, issuedAt: int, verifiedAt: int)

  datatype Phase =
    | Idle
    | Verified(proof: Proof)
    | Timed(proof: Proof, sweepAt: int)
    // DELETE ran when this many uses were committed, and took these rows
    | Swept(proof: Proof, sweepAt: int, after: nat, gone: set<string>)
    | Inserted(proof: Proof, sweepAt: int, after: nat, gone: set<string>, insertedAt: int)

  /** A committed request that used its proof up. */
  datatype Use = Use(proof: Proof, insertedAt: int)

  /** A committed sweep: the clock it compared with, and how many uses came before it. */
  datatype Sweep = Sweep(at: int, after: nat)

  datatype State = State(
    now: int,
    slack: int,
    rows: Rows,                  // committed
    workers: map<nat, Phase>,    // those not listed are idle
    uses: seq<Use>,
    sweeps: seq<Sweep>)

  datatype Event =
    | Tick(now: int)
    | Verify(w: nat, key: string, claim: Claim)
    | ReadClock(w: nat)
    | Delete(w: nat)
    | Insert(w: nat)
    | Refuse(w: nat)       // INSERT changed no row
    | Commit(w: nat)
    | Abandon(w: nat)      // any other failure of the request

  function PhaseOf(s: State, w: nat): Phase {
    if w in s.workers then s.workers[w] else Idle
  }

  function OldKeys(rows: Rows, at: int): set<string> {
    set key | key in rows && rows[key] < at
  }

  /** What an open transaction keeps others from touching. */
  function Locks(p: Phase): set<string> {
    match p
    case Swept(_, _, _, gone) => gone
    case Inserted(proof, _, _, gone, _) => gone + {proof.key}
    case _ => {}
  }

  ghost predicate Unlocked(s: State, keys: set<string>, w: nat) {
    forall v :: v in s.workers && v != w ==> Locks(s.workers[v]) !! keys
  }

  /** No row has the key, or this transaction has just swept it. */
  predicate Unused(s: State, p: Phase)
    requires p.Swept?
  {
    p.proof.key !in s.rows || p.proof.key in p.gone
  }

  ghost predicate Enabled(s: State, e: Event) {
    match e
    case Tick(now) => s.now <= now
    case Verify(w, key, claim) => PhaseOf(s, w).Idle? && CheckedIssuedAt(claim, s.now).Some?
    case ReadClock(w) => PhaseOf(s, w).Verified?
    case Delete(w) => PhaseOf(s, w).Timed? && Unlocked(s, OldKeys(s.rows, PhaseOf(s, w).sweepAt), w)
    case Insert(w) =>
      PhaseOf(s, w).Swept? && Unlocked(s, {PhaseOf(s, w).proof.key}, w) && Unused(s, PhaseOf(s, w))
    case Refuse(w) =>
      PhaseOf(s, w).Swept? && Unlocked(s, {PhaseOf(s, w).proof.key}, w) && !Unused(s, PhaseOf(s, w))
    case Commit(w) => PhaseOf(s, w).Inserted?
    case Abandon(w) => !PhaseOf(s, w).Idle?
  }

  function WithPhase(s: State, w: nat, p: Phase): State {
    s.(workers := s.workers[w := p])
  }

  /** A request that is refused is rolled back, its sweep included. */
  ghost function Next(s: State, e: Event): State
    requires Enabled(s, e)
  {
    match e
    case Tick(now) => s.(now := now)
    case Verify(w, key, claim) => WithPhase(s, w, Verified(Proof(key, claim, CheckedIssuedAt(claim, s.now).value, s.now)))
    case ReadClock(w) => WithPhase(s, w, Timed(PhaseOf(s, w).proof, s.now))
    case Delete(w) =>
      var p := PhaseOf(s, w);
      WithPhase(s, w, Swept(p.proof, p.sweepAt, |s.uses|, OldKeys(s.rows, p.sweepAt)))
    case Insert(w) =>
      var p := PhaseOf(s, w);
      WithPhase(s, w, Inserted(p.proof, p.sweepAt, p.after, p.gone, s.now))
    case Refuse(w) => WithPhase(s, w, Idle)
    case Commit(w) =>
      var p := PhaseOf(s, w);
      WithPhase(s, w, Idle).(
        rows := (s.rows - p.gone)[p.proof.key := RetainUntil(p.proof.issuedAt, s.slack)],
        uses := s.uses + [Use(p.proof, p.insertedAt)],
        sweeps := s.sweeps + [Sweep(p.sweepAt, p.after)])
    case Abandon(w) => WithPhase(s, w, Idle)
  }

  ghost predicate RunsTo(s: State, events: seq<Event>, t: State)
    decreases |events|
  {
    if events == [] then s == t
    else Enabled(s, events[0]) && RunsTo(Next(s, events[0]), events[1..], t)
  }

  // ------------------------------------------------------------ the invariant

  /** The last committed use of a key, -1 if there is none. */
  function LastUse(uses: seq<Use>, key: string): int {
    if uses == [] then -1
    else if uses[|uses| - 1].proof.key == key then |uses| - 1
    else LastUse(uses[..|uses| - 1], key)
  }

  lemma {:induction false} LastUseIsLast(uses: seq<Use>, key: string)
    ensures var i := LastUse(uses, key);
            && -1 <= i < |uses|
            && (i >= 0 ==> uses[i].proof.key == key)
            && (forall j :: i < j < |uses| ==> uses[j].proof.key != key)
  {
    if uses != [] && uses[|uses| - 1].proof.key != key {
      LastUseIsLast(uses[..|uses| - 1], key);
    }
  }

  function Retained(s: State, i: nat): int
    requires i < |s.uses|
  {
    RetainUntil(s.uses[i].proof.issuedAt, s.slack)
  }

  /** A sweep that ran after the last use of the key, with a clock past its retention. */
  ghost predicate TakenBy(s: State, key: string, at: int, after: int) {
    var i := LastUse(s.uses, key);
    0 <= i < |s.uses| && i < after && Retained(s, i) < at
  }

  /** The table holds the last use of every key, unless a committed sweep took it. */
  ghost predicate RowIsRight(s: State, key: string) {
    var i := LastUse(s.uses, key);
    && (key in s.rows <==> 0 <= i < |s.uses| && forall z :: z in s.sweeps ==> !TakenBy(s, key, z.at, z.after))
    && (key in s.rows ==> s.rows[key] == Retained(s, i))
  }

  ghost predicate ProofIsRight(s: State, proof: Proof) {
    CheckedIssuedAt(proof.claim, proof.verifiedAt) == Some(proof.issuedAt) && proof.verifiedAt <= s.now
  }

  ghost predicate SweepIsRight(s: State, sweepAt: int, after: nat, gone: set<string>) {
    && after <= |s.uses| && gone <= s.rows.Keys
    && (forall key :: key in s.rows ==> (key in gone <==> TakenBy(s, key, sweepAt, after)))
  }

  /** Every earlier use of the key was past its retention. */
  ghost predicate IsApart(s: State, key: string, insertedAt: int, before: int) {
    forall i :: 0 <= i < before && i < |s.uses| && s.uses[i].proof.key == key ==> Retained(s, i) < insertedAt
  }

  ghost predicate PhaseIsRight(s: State, p: Phase) {
    match p
    case Idle => true
    case Verified(proof) => ProofIsRight(s, proof)
    case Timed(proof, sweepAt) => ProofIsRight(s, proof) && proof.verifiedAt <= sweepAt <= s.now
    case Swept(proof, sweepAt, after, gone) =>
      && ProofIsRight(s, proof) && proof.verifiedAt <= sweepAt <= s.now && SweepIsRight(s, sweepAt, after, gone)
    case Inserted(proof, sweepAt, after, gone, insertedAt) =>
      && ProofIsRight(s, proof) && proof.verifiedAt <= sweepAt <= insertedAt <= s.now
      && SweepIsRight(s, sweepAt, after, gone)
      && (proof.key in s.rows ==> proof.key in gone)
      && IsApart(s, proof.key, insertedAt, |s.uses|)
  }

  ghost predicate LocksAreExclusive(s: State) {
    forall v, w :: v in s.workers && w in s.workers && v != w ==> Locks(s.workers[v]) !! Locks(s.workers[w])
  }

  ghost predicate UseIsRight(s: State, j: nat)
    requires j < |s.uses|
  {
    var u := s.uses[j];
    && ProofIsRight(s, u.proof) && u.proof.verifiedAt <= u.insertedAt <= s.now
    && IsApart(s, u.proof.key, u.insertedAt, j)
  }

  ghost predicate Inv(s: State) {
    && (forall key :: RowIsRight(s, key))
    && (forall z :: z in s.sweeps ==> z.at <= s.now && z.after <= |s.uses|)
    && (forall j :: 0 <= j < |s.uses| ==> UseIsRight(s, j))
    && (forall w :: w in s.workers ==> PhaseIsRight(s, s.workers[w]))
    && LocksAreExclusive(s)
  }

  ghost predicate Initial(s: State) {
    s.rows == map[] && s.workers == map[] && s.uses == [] && s.sweeps == []
  }

  lemma InitialHasInv(s: State)
    requires Initial(s)
    ensures Inv(s)
  {
  }

  // ------------------------------------------------------------ every step keeps it

  lemma PhaseChangeKeepsInv(s: State, w: nat, p: Phase)
    requires Inv(s) && PhaseIsRight(s, p) && Unlocked(s, Locks(p), w)
    ensures Inv(WithPhase(s, w, p))
  {
    var t := WithPhase(s, w, p);
    forall key ensures RowIsRight(t, key) {
      assert RowIsRight(s, key);
    }
    forall j: nat | j < |t.uses| ensures UseIsRight(t, j) {
      assert UseIsRight(s, j);
    }
    forall v | v in t.workers ensures PhaseIsRight(t, t.workers[v]) {
      assert v != w ==> PhaseIsRight(s, s.workers[v]);
      SamePhase(s, t, t.workers[v]);
    }
  }

  lemma SamePhase(s: State, t: State, p: Phase)
    requires PhaseIsRight(s, p) && s.now <= t.now && t == s.(now := t.now, workers := t.workers)
    ensures PhaseIsRight(t, p)
  {
  }

  lemma TickKeepsInv(s: State, now: int)
    requires Inv(s) && s.now <= now
    ensures Inv(s.(now := now))
  {
    var t := s.(now := now);
    forall key ensures RowIsRight(t, key) {
      assert RowIsRight(s, key);
    }
    forall j: nat | j < |t.uses| ensures UseIsRight(t, j) {
      assert UseIsRight(s, j);
    }
    forall v | v in t.workers ensures PhaseIsRight(t, t.workers[v]) {
      SamePhase(s, t, t.workers[v]);
    }
  }

  lemma DeleteIsRight(s: State, w: nat)
    requires Inv(s) && Enabled(s, Delete(w))
    ensures var p := PhaseOf(s, w);
            PhaseIsRight(s, Swept(p.proof, p.sweepAt, |s.uses|, OldKeys(s.rows, p.sweepAt)))
  {
    var p := s.workers[w];
    assert PhaseIsRight(s, p);
    forall key | key in s.rows ensures key in OldKeys(s.rows, p.sweepAt) <==> TakenBy(s, key, p.sweepAt, |s.uses|) {
      assert RowIsRight(s, key);
    }
  }

  /** The last use is past its retention because its row is gone; the earlier ones were already. */
  lemma UnusedIsApart(s: State, w: nat)
    requires Inv(s) && PhaseOf(s, w).Swept? && Unused(s, PhaseOf(s, w))
    ensures IsApart(s, PhaseOf(s, w).proof.key, s.now, |s.uses|)
  {
    var p := s.workers[w];
    var key := p.proof.key;
    assert PhaseIsRight(s, p) && RowIsRight(s, key);
    LastUseIsLast(s.uses, key);
    var last := LastUse(s.uses, key);
    if last >= 0 {
      assert Retained(s, last) < s.now;
      assert UseIsRight(s, last);
    }
  }

  lemma InsertIsRight(s: State, w: nat)
    requires Inv(s) && Enabled(s, Insert(w))
    ensures var p := PhaseOf(s, w);
            PhaseIsRight(s, Inserted(p.proof, p.sweepAt, p.after, p.gone, s.now))
  {
    assert PhaseIsRight(s, s.workers[w]);
    UnusedIsApart(s, w);
  }

  lemma LastUseAfter(uses: seq<Use>, u: Use, key: string)
    ensures LastUse(uses + [u], key) == if u.proof.key == key then |uses| else LastUse(uses, key)
  {
  }

  lemma TakenByAfter(s: State, w: nat, key: string, at: int, after: int)
    requires Inv(s) && Enabled(s, Commit(w)) && after <= |s.uses|
    ensures TakenBy(Next(s, Commit(w)), key, at, after) <==> key != PhaseOf(s, w).proof.key && TakenBy(s, key, at, after)
  {
  }

  /** The committed proof's row is its last use, and no sweep ran after it. */
  lemma CommitAddsRow(s: State, w: nat)
    requires Inv(s) && Enabled(s, Commit(w))
    ensures RowIsRight(Next(s, Commit(w)), s.workers[w].proof.key)
  {
    var p, t := s.workers[w], Next(s, Commit(w));
    var key := p.proof.key;
    assert PhaseIsRight(s, p);
    LastUseAfter(s.uses, Use(p.proof, p.insertedAt), key);
    forall z | z in t.sweeps ensures !TakenBy(t, key, z.at, z.after) {
      TakenByAfter(s, w, key, z.at, z.after);
    }
  }

  lemma CommitTakesOnlySwept(s: State, w: nat, key: string)
    requires Inv(s) && Enabled(s, Commit(w)) && key != s.workers[w].proof.key
    ensures (forall z :: z in Next(s, Commit(w)).sweeps ==> !TakenBy(Next(s, Commit(w)), key, z.at, z.after))
            <==> (forall z :: z in s.sweeps ==> !TakenBy(s, key, z.at, z.after))
                 && !TakenBy(s, key, s.workers[w].sweepAt, s.workers[w].after)
  {
    var p, t := s.workers[w], Next(s, Commit(w));
    var last := Sweep(p.sweepAt, p.after);
    assert PhaseIsRight(s, p);
    forall z | z in t.sweeps ensures TakenBy(t, key, z.at, z.after) <==> TakenBy(s, key, z.at, z.after) {
      TakenByAfter(s, w, key, z.at, z.after);
    }
    assert last in t.sweeps;
    assert forall z :: z in t.sweeps <==> z in s.sweeps || z == last;
  }

  lemma CommitKeepsRow(s: State, w: nat, key: string)
    requires Inv(s) && Enabled(s, Commit(w))
    ensures RowIsRight(Next(s, Commit(w)), key)
  {
    var p, t := s.workers[w], Next(s, Commit(w));
    if key == p.proof.key {
      CommitAddsRow(s, w);
    } else {
      assert PhaseIsRight(s, p) && RowIsRight(s, key);
      LastUseAfter(s.uses, Use(p.proof, p.insertedAt), key);
      LastUseIsLast(s.uses, key);
      CommitTakesOnlySwept(s, w, key);
      var i := LastUse(s.uses, key);
      assert 0 <= i < |s.uses| ==> t.uses[i] == s.uses[i];
    }
  }

  lemma CommitKeepsApart(s: State, w: nat, key: string, insertedAt: int, before: int)
    requires Enabled(s, Commit(w)) && before <= |s.uses| && IsApart(s, key, insertedAt, before)
    ensures IsApart(Next(s, Commit(w)), key, insertedAt, before)
  {
  }

  lemma CommitKeepsUse(s: State, w: nat, j: nat)
    requires Inv(s) && Enabled(s, Commit(w)) && j <= |s.uses|
    ensures UseIsRight(Next(s, Commit(w)), j)
  {
    var p := s.workers[w];
    assert PhaseIsRight(s, p);
    if j < |s.uses| {
      assert UseIsRight(s, j);
      CommitKeepsApart(s, w, s.uses[j].proof.key, s.uses[j].insertedAt, j);
    } else {
      CommitKeepsApart(s, w, p.proof.key, p.insertedAt, j);
    }
  }

  lemma CommitKeepsSweep(s: State, w: nat, v: nat, sweepAt: int, after: nat, gone: set<string>)
    requires Inv(s) && Enabled(s, Commit(w)) && v in s.workers && v != w
    requires SweepIsRight(s, sweepAt, after, gone) && gone <= Locks(s.workers[v])
    ensures SweepIsRight(Next(s, Commit(w)), sweepAt, after, gone)
  {
    var p, t := s.workers[w], Next(s, Commit(w));
    assert Locks(p) !! gone;
    forall key | key in t.rows ensures key in gone <==> TakenBy(t, key, sweepAt, after) {
      TakenByAfter(s, w, key, sweepAt, after);
    }
  }

  lemma CommitKeepsPhase(s: State, w: nat, v: nat)
    requires Inv(s) && Enabled(s, Commit(w)) && v in s.workers && v != w
    ensures PhaseIsRight(Next(s, Commit(w)), s.workers[v])
  {
    var p, q, t := s.workers[w], s.workers[v], Next(s, Commit(w));
    assert PhaseIsRight(s, q) && Locks(p) !! Locks(q);
    if q.Swept? || q.Inserted? {
      CommitKeepsSweep(s, w, v, q.sweepAt, q.after, q.gone);
    }
    if q.Inserted? {
      assert q.proof.key != p.proof.key;
      CommitKeepsApart(s, w, q.proof.key, q.insertedAt, |s.uses|);
    }
  }

  lemma CommitKeepsInv(s: State, w: nat)
    requires Inv(s) && Enabled(s, Commit(w))
    ensures Inv(Next(s, Commit(w)))
  {
    var t := Next(s, Commit(w));
    assert PhaseIsRight(s, s.workers[w]);
    forall key ensures RowIsRight(t, key) {
      CommitKeepsRow(s, w, key);
    }
    forall j: nat | j < |t.uses| ensures UseIsRight(t, j) {
      CommitKeepsUse(s, w, j);
    }
    forall v | v in t.workers ensures PhaseIsRight(t, t.workers[v]) {
      if v != w {
        CommitKeepsPhase(s, w, v);
      }
    }
  }

  lemma StepKeepsInv(s: State, e: Event)
    requires Inv(s) && Enabled(s, e)
    ensures Inv(Next(s, e))
  {
    match e
    case Tick(now) => TickKeepsInv(s, now);
    case Verify(w, key, claim) => PhaseChangeKeepsInv(s, w, Next(s, e).workers[w]);
    case ReadClock(w) =>
      assert PhaseIsRight(s, s.workers[w]);
      PhaseChangeKeepsInv(s, w, Timed(PhaseOf(s, w).proof, s.now));
    case Delete(w) =>
      DeleteIsRight(s, w);
      PhaseChangeKeepsInv(s, w, Next(s, e).workers[w]);
    case Insert(w) =>
      InsertIsRight(s, w);
      assert LocksAreExclusive(s);
      PhaseChangeKeepsInv(s, w, Next(s, e).workers[w]);
    case Refuse(w) => PhaseChangeKeepsInv(s, w, Idle);
    case Commit(w) => CommitKeepsInv(s, w);
    case Abandon(w) => PhaseChangeKeepsInv(s, w, Idle);
  }

  lemma {:induction false} RunKeepsInv(s: State, events: seq<Event>, t: State)
    requires Inv(s) && RunsTo(s, events, t)
    ensures Inv(t) && t.slack == s.slack
    decreases |events|
  {
    if events != [] {
      StepKeepsInv(s, events[0]);
      RunKeepsInv(Next(s, events[0]), events[1..], t);
    }
  }

  // ------------------------------------------------------------ at most one use

  /** A proof whose key was used before is used up again exactly when a sweep has run since that
      use with a clock past its retention: a committed one of any worker, or the request's own.
      Either way the verifier had found the proof in the window. */
  lemma SecondUse(s: State, w: nat)
    requires Inv(s) && PhaseOf(s, w).Swept? && Unlocked(s, {PhaseOf(s, w).proof.key}, w)
    requires LastUse(s.uses, PhaseOf(s, w).proof.key) >= 0
    ensures var p := PhaseOf(s, w);
            var i := LastUse(s.uses, p.proof.key);
            && i < |s.uses| && p.proof.verifiedAt - 120_000_000 <= p.proof.issuedAt <= p.proof.verifiedAt + 60_000_000
            && (Enabled(s, Insert(w)) <==>
                || (exists z :: z in s.sweeps && i < z.after && Retained(s, i) < z.at)
                || (i < p.after && Retained(s, i) < p.sweepAt))
            && (Enabled(s, Refuse(w)) <==> !Enabled(s, Insert(w)))
  {
    var p := s.workers[w];
    LastUseIsLast(s.uses, p.proof.key);
    assert PhaseIsRight(s, p) && RowIsRight(s, p.proof.key);
    var i := LastUse(s.uses, p.proof.key);
    forall z | z in s.sweeps
      ensures TakenBy(s, p.proof.key, z.at, z.after) <==> i < z.after && Retained(s, i) < z.at
    {
    }
  }

  /** A key that no committed request used is never refused. */
  lemma FirstUse(s: State, w: nat)
    requires Inv(s) && PhaseOf(s, w).Swept? && Unlocked(s, {PhaseOf(s, w).proof.key}, w)
    requires LastUse(s.uses, PhaseOf(s, w).proof.key) < 0
    ensures Enabled(s, Insert(w))
  {
    assert RowIsRight(s, PhaseOf(s, w).proof.key);
  }

  /** In every run of any number of workers a second use of one proof took its request longer
      than the slack, from the verifier's clock reading to the INSERT. */
  lemma AnotherUseTakesLonger(s: State, events: seq<Event>, t: State, i: nat, j: nat)
    requires Initial(s) && RunsTo(s, events, t) && i < j < |t.uses|
    requires t.uses[i].proof.key == t.uses[j].proof.key && t.uses[i].proof.claim == t.uses[j].proof.claim
    ensures t.uses[j].insertedAt - t.uses[j].proof.verifiedAt > s.slack
  {
    InitialHasInv(s);
    RunKeepsInv(s, events, t);
    assert UseIsRight(t, i) && UseIsRight(t, j);
    assert Retained(t, i) < t.uses[j].insertedAt;
  }

  /** So a proof is used up at most once where no request takes longer than that. */
  lemma UsedUpAtMostOnce(s: State, events: seq<Event>, t: State)
    requires Initial(s) && RunsTo(s, events, t)
    requires forall j :: 0 <= j < |t.uses| ==> t.uses[j].insertedAt - t.uses[j].proof.verifiedAt <= s.slack
    ensures forall i, j :: 0 <= i < j < |t.uses| ==>
                             (t.uses[i].proof.key, t.uses[i].proof.claim) != (t.uses[j].proof.key, t.uses[j].proof.claim)
  {
    forall i, j | 0 <= i < j < |t.uses|
      ensures (t.uses[i].proof.key, t.uses[i].proof.claim) != (t.uses[j].proof.key, t.uses[j].proof.claim)
    {
      if (t.uses[i].proof.key, t.uses[i].proof.claim) == (t.uses[j].proof.key, t.uses[j].proof.claim) {
        AnotherUseTakesLonger(s, events, t, i, j);
      }
    }
  }

  // ------------------------------------------------------------ runs put together

  lemma RunsOne(s: State, e: Event, rest: seq<Event>, t: State)
    requires Enabled(s, e) && RunsTo(Next(s, e), rest, t)
    ensures RunsTo(s, [e] + rest, t)
  {
  }

  lemma TwoSteps(s: State, a: Event, b: Event)
    requires Enabled(s, a) && Enabled(Next(s, a), b)
    ensures RunsTo(s, [a, b], Next(Next(s, a), b))
  {
  }

  lemma {:induction false} RunsCompose(s: State, first: seq<Event>, m: State, second: seq<Event>, t: State)
    requires RunsTo(s, first, m) && RunsTo(m, second, t)
    ensures RunsTo(s, first + second, t)
    decreases |first|
  {
    if first == [] {
      assert first + second == second;
    } else {
      assert (first + second)[1..] == first[1..] + second;
      RunsCompose(Next(s, first[0]), first[1..], m, second, t);
    }
  }

  /** The two statements of the repository, and the commit. */
  function Recording(w: nat): seq<Event> {
    [Delete(w), Insert(w)] + [Commit(w)]
  }

  /** Undisturbed, they do to the table what RecordIfUnused does. */
  lemma RecordingIsRecordIfUnused(s: State, w: nat) returns (t: State)
    requires PhaseOf(s, w).Timed? && PhaseOf(s, w).proof.key !in SweptRows(s.rows, PhaseOf(s, w).sweepAt)
    requires Unlocked(s, OldKeys(s.rows, PhaseOf(s, w).sweepAt) + {PhaseOf(s, w).proof.key}, w)
    ensures RunsTo(s, Recording(w), t)
    ensures var p := PhaseOf(s, w);
            t == State(
              s.now, s.slack,
              RowsAfter(s.rows, p.proof.key, RetainUntil(p.proof.issuedAt, s.slack), p.sweepAt),
              s.workers[w := Idle],
              s.uses + [Use(p.proof, s.now)],
              s.sweeps + [Sweep(p.sweepAt, |s.uses|)])
  {
    var p := PhaseOf(s, w);
    var deleted := Next(s, Delete(w));
    assert Unlocked(deleted, {p.proof.key}, w);
    var inserted := Next(deleted, Insert(w));
    TwoSteps(s, Delete(w), Insert(w));
    t := Next(inserted, Commit(w));
    assert RunsTo(t, [], t);
    RunsOne(inserted, Commit(w), [], t);
    assert [Commit(w)] + [] == [Commit(w)];
    RunsCompose(s, [Delete(w), Insert(w)], inserted, [Commit(w)], t);
    assert s.rows - OldKeys(s.rows, p.sweepAt) == SweptRows(s.rows, p.sweepAt);
    assert t.workers == s.workers[w := Idle];
  }

  function Checking(w: nat, key: string, claim: Claim): seq<Event> {
    [Verify(w, key, claim), ReadClock(w)]
  }

  /** A whole request with nothing in between. */
  function Request(w: nat, key: string, claim: Claim): seq<Event> {
    Checking(w, key, claim) + Recording(w)
  }

  lemma UndisturbedRequest(s: State, w: nat, key: string, claim: Claim) returns (t: State)
    requires PhaseOf(s, w).Idle? && CheckedIssuedAt(claim, s.now).Some?
    requires key !in SweptRows(s.rows, s.now) && Unlocked(s, OldKeys(s.rows, s.now) + {key}, w)
    ensures RunsTo(s, Request(w, key, claim), t)
    ensures t == State(
      s.now, s.slack, RowsAfter(s.rows, key, RetainUntil(CheckedIssuedAt(claim, s.now).value, s.slack), s.now), s.workers[w := Idle],
      s.uses + [Use(Proof(key, claim, CheckedIssuedAt(claim, s.now).value, s.now), s.now)], s.sweeps + [Sweep(s.now, |s.uses|)])
  {
    var m := Next(Next(s, Verify(w, key, claim)), ReadClock(w));
    TwoSteps(s, Verify(w, key, claim), ReadClock(w));
    assert Unlocked(m, OldKeys(s.rows, s.now) + {key}, w);
    t := RecordingIsRecordIfUnused(m, w);
    assert m.workers[w := Idle] == s.workers[w := Idle];
    RunsCompose(s, Checking(w, key, claim), m, Recording(w), t);
  }

  lemma {:induction false} UsesOnlyGrow(s: State, events: seq<Event>, t: State)
    requires RunsTo(s, events, t)
    ensures s.uses <= t.uses && s.now <= t.now
    decreases |events|
  {
    if events != [] {
      UsesOnlyGrow(Next(s, events[0]), events[1..], t);
    }
  }

  /** The worker's whole request can run now, one step after the other, up to the commit. */
  ghost predicate CanUseUp(s: State, w: nat, key: string, claim: Claim) {
    exists t :: RunsTo(s, Request(w, key, claim), t)
  }

  lemma RequestNeedsTheWindow(s: State, w: nat, key: string, claim: Claim, t: State)
    requires RunsTo(s, Request(w, key, claim), t)
    ensures CheckedIssuedAt(claim, s.now).Some?
  {
  }

  /** What made room for the key makes room for it later: its last use is past its retention. */
  lemma StillUnused(s: State, w: nat, events: seq<Event>, t: State)
    requires Inv(s) && PhaseOf(s, w).Inserted? && RunsTo(Next(s, Abandon(w)), events, t)
    requires LastUse(t.uses, PhaseOf(s, w).proof.key) == LastUse(s.uses, PhaseOf(s, w).proof.key)
    ensures PhaseOf(s, w).proof.key !in SweptRows(t.rows, t.now)
  {
    var p := s.workers[w];
    assert PhaseIsRight(s, p);
    StepKeepsInv(s, Abandon(w));
    RunKeepsInv(Next(s, Abandon(w)), events, t);
    UsesOnlyGrow(Next(s, Abandon(w)), events, t);
    LastUseIsLast(s.uses, p.proof.key);
    assert RowIsRight(t, p.proof.key);
  }

  /** A request that recorded its proof and was rolled back has not used it up: at every later
      moment up to the next committed use of its key, an idle worker whom nobody keeps waiting
      can use the proof up if and only if it is still in the window. */
  lemma RolledBackProofCanBeUsed(s: State, w: nat, events: seq<Event>, t: State, v: nat)
    requires Inv(s) && PhaseOf(s, w).Inserted? && RunsTo(Next(s, Abandon(w)), events, t)
    requires LastUse(t.uses, PhaseOf(s, w).proof.key) == LastUse(s.uses, PhaseOf(s, w).proof.key)
    requires PhaseOf(t, v).Idle? && Unlocked(t, OldKeys(t.rows, t.now) + {PhaseOf(s, w).proof.key}, v)
    ensures var proof := PhaseOf(s, w).proof;
            CanUseUp(t, v, proof.key, proof.claim) <==> t.now - 120_000_000 <= proof.issuedAt <= t.now + 60_000_000
  {
    var proof := PhaseOf(s, w).proof;
    StillUnused(s, w, events, t);
    if CheckedIssuedAt(proof.claim, t.now).Some? {
      var u := UndisturbedRequest(t, v, proof.key, proof.claim);
      assert RunsTo(t, Request(v, proof.key, proof.claim), u);
    }
    if CanUseUp(t, v, proof.key, proof.claim) {
      var u :| RunsTo(t, Request(v, proof.key, proof.claim), u);
      RequestNeedsTheWindow(t, v, proof.key, proof.claim, u);
    }
  }

  // ------------------------------------------------------------ runs with two uses

  function Start(slack: int): State {
    State(0, slack, map[], map[], [], [])
  }

  /** Verified at the last moment of the window, recorded a microsecond after the retention: with
      no slack one microsecond between the two clock readings is enough. */
  lemma UsedUpTwiceAcrossTheEdge(slack: nat) returns (events: seq<Event>, t: State)
    ensures RunsTo(Start(slack), events, t) && |t.uses| == 2
    ensures t.uses[0].proof.key == t.uses[1].proof.key && t.uses[0].proof.claim == t.uses[1].proof.claim
    ensures t.uses[1].insertedAt - t.uses[1].proof.verifiedAt == slack + 1
  {
    var s1 := UndisturbedRequest(Start(slack), 0, "k", Number(0));
    var s2 := Next(Next(s1, Tick(MAX_PROOF_AGE)), Verify(1, "k", Number(0)));
    TwoSteps(s1, Tick(MAX_PROOF_AGE), Verify(1, "k", Number(0)));
    var s3 := Next(Next(s2, Tick(MAX_PROOF_AGE + slack + 1)), ReadClock(1));
    TwoSteps(s2, Tick(MAX_PROOF_AGE + slack + 1), ReadClock(1));
    t := RecordingIsRecordIfUnused(s3, 1);
    RunsCompose(Start(slack), Request(0, "k", Number(0)), s1, [Tick(MAX_PROOF_AGE), Verify(1, "k", Number(0))], s2);
    var most := Request(0, "k", Number(0)) + [Tick(MAX_PROOF_AGE), Verify(1, "k", Number(0))];
    var last := [Tick(MAX_PROOF_AGE + slack + 1), ReadClock(1)];
    RunsCompose(Start(slack), most, s2, last, s3);
    RunsCompose(Start(slack), most + last, s3, Recording(1), t);
    events := most + last + Recording(1);
  }

  /** The proof was used, and another worker has verified it again at the window's last moment. */
  function CheckedAgain(slack: nat): State {
    State(
      MAX_PROOF_AGE, slack, map["k" := RetainUntil(0, slack)],
      map[0 := Idle, 1 := Timed(Proof("k", Number(0), 0, MAX_PROOF_AGE), MAX_PROOF_AGE)],
      [Use(Proof("k", Number(0), 0, 0), 0)], [Sweep(0, 0)])
  }

  function UsedOnce(slack: nat): State {
    State(
      0, slack, map["k" := RetainUntil(0, slack)], map[0 := Idle], [Use(Proof("k", Number(0), 0, 0), 0)], [Sweep(0, 0)])
  }

  lemma ReachUsedOnce(slack: nat)
    ensures RunsTo(Start(slack), Request(0, "k", Number(0)), UsedOnce(slack))
  {
    var t := UndisturbedRequest(Start(slack), 0, "k", Number(0));
    assert SweptRows(Start(slack).rows, 0) == map[];
    assert t.rows == UsedOnce(slack).rows;
    assert t == UsedOnce(slack);
  }

  lemma ReachCheckedAgain(slack: nat) returns (events: seq<Event>)
    ensures RunsTo(Start(slack), events, CheckedAgain(slack))
  {
    ReachUsedOnce(slack);
    var tick := Tick(MAX_PROOF_AGE);
    var m := Next(UsedOnce(slack), tick);
    TwoSteps(m, Verify(1, "k", Number(0)), ReadClock(1));
    RunsOne(UsedOnce(slack), tick, Checking(1, "k", Number(0)), CheckedAgain(slack));
    RunsCompose(
      Start(slack), Request(0, "k", Number(0)), UsedOnce(slack), [tick] + Checking(1, "k", Number(0)), CheckedAgain(slack));
    events := Request(0, "k", Number(0)) + ([tick] + Checking(1, "k", Number(0)));
  }

  /** A third worker with another proof sweeps after the retention; then the INSERT runs. */
  lemma InsertAfterAnotherSweep(slack: nat) returns (events: seq<Event>, t: State)
    requires slack < 121 * SECOND
    ensures RunsTo(CheckedAgain(slack), events, t)
    ensures t.uses == CheckedAgain(slack).uses
      + [Use(Proof("b", Number(121), 121 * SECOND, MAX_PROOF_AGE + slack + 1), MAX_PROOF_AGE + slack + 1)]
      + [Use(Proof("k", Number(0), 0, MAX_PROOF_AGE), MAX_PROOF_AGE + slack + 1)]
    ensures |t.sweeps| == 3 && t.sweeps[2].at == MAX_PROOF_AGE
  {
    var s, late := CheckedAgain(slack), Tick(MAX_PROOF_AGE + slack + 1);
    var n := Next(s, late);
    assert RunsTo(n, [], n);
    RunsOne(s, late, [], n);
    var swept := UndisturbedRequest(n, 2, "b", Number(121));
    t := RecordingIsRecordIfUnused(swept, 1);
    RunsCompose(n, Request(2, "b", Number(121)), swept, Recording(1), t);
    RunsCompose(s, [late] + [], n, Request(2, "b", Number(121)) + Recording(1), t);
    events := [late] + [] + (Request(2, "b", Number(121)) + Recording(1));
  }

  /** Even a request whose own two clock readings agree uses a proof up again, when another
      request's sweep comes before its INSERT. The slack must reach up to the INSERT. */
  lemma UsedUpTwiceAfterAnotherSweep(slack: nat) returns (events: seq<Event>, t: State)
    requires slack < 121 * SECOND
    ensures RunsTo(Start(slack), events, t) && |t.uses| == 3 && |t.sweeps| == 3
    ensures t.uses[0].proof.key == t.uses[2].proof.key != t.uses[1].proof.key
    ensures t.uses[0].proof.claim == t.uses[2].proof.claim && t.uses[2].proof.verifiedAt == t.sweeps[2].at
  {
    var first := ReachCheckedAgain(slack);
    var rest, end := InsertAfterAnotherSweep(slack);
    RunsCompose(Start(slack), first, CheckedAgain(slack), rest, end);
    events, t := first + rest, end;
    assert "k"[0] != "b"[0];
  }
}

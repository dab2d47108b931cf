/** The one-shot protocol run by any number of workers at once.

    Each request is one transaction: it reads (possibly a state that is already out of
    date), deletes the row under a row lock, looks at the number of deleted rows and at
    the expiry, and ends by committing or by rolling back. A deletion is visible to
    others only once it is committed; until then they wait for the lock. */
module OneShotConcurrency {
  import opened Wrappers
  import opened OneShot

  /** Where a worker stands in its transaction. */
  datatype Phase<V> =
    | Idle
    | Issuing(id: string, row: Row<V>, swept: set<string>)  // swept and inserted, not committed
    // the row was read and is for the purpose the request asks for
    | Fetched(id: string, row: Row<V>, purpose: Option<string>)
    // DELETE reported one row
    | Taken(id: string, row: Row<V>, purpose: Option<string>)
    // not expired: the row is handed out and the request goes on
    | Holding(id: string, row: Row<V>, purpose: Option<string>, judgedAt: int)

  /** A committed request that obtained a row. */
  datatype Win<V> = Win(id: string, row: Row<V>, purpose: Option<string>, judgedAt: int)

  datatype State<V> = State(
    now: int,
    rows: Table<V>,                // committed
    workers: map<nat, Phase<V>>,   // those not listed are idle
    ledger: Ledger<V>,             // what was committed so far, nothing deleted
    wins: seq<Win<V>>)

  datatype Event<V> =
    | Tick(now: int)
    | StartIssue(w: nat, id: string, row: Row<V>)
    | CommitIssue(w: nat)
    | Miss(w: nat, id: string, purpose: Option<string>)   // nothing found, refused
    | Fetch(w: nat, id: string, purpose: Option<string>)
    | Late(w: nat)                                        // DELETE reported no row, refused
    | Take(w: nat)
    | TooOld(w: nat)                                      // expired, refused
    | Grant(w: nat)
    | Commit(w: nat)
    | Abandon(w: nat)                                     // any other failure of the request

  function PhaseOf<V>(s: State<V>, w: nat): Phase<V> {
    if w in s.workers then s.workers[w] else Idle
  }

  /** The committed rows a worker has deleted and not yet committed or rolled back. */
  function Locks<V>(phase: Phase<V>): set<string> {
    match phase
    case Idle => {}
    case Issuing(_, _, swept) => swept
    case Fetched(_, _, _) => {}
    case Taken(id, _, _) => {id}
    case Holding(id, _, _, _) => {id}
  }

  function OldKeys<V>(rows: Table<V>, now: int): set<string> {
    set id | id in rows && rows[id].expiresAt < now
  }

  ghost predicate Unlocked<V>(s: State<V>, ids: set<string>, w: nat) {
    forall v :: v in s.workers && v != w ==> Locks(s.workers[v]) !! ids
  }

  ghost predicate Enabled<V>(s: State<V>, e: Event<V>) {
    match e
    case Tick(now) => s.now <= now
    case StartIssue(w, id, row) =>
      && PhaseOf(s, w).Idle?
      && id !in s.ledger.issued
      && (forall v :: v in s.workers && s.workers[v].Issuing? ==> s.workers[v].id != id)
      && Unlocked(s, OldKeys(s.rows, s.now), w)
    case CommitIssue(w) => PhaseOf(s, w).Issuing?
    case Miss(w, id, purpose) => PhaseOf(s, w).Idle? && !Finds(s.rows, id, purpose)
    // the read may be out of date: any row that was ever committed can be seen
    case Fetch(w, id, purpose) => PhaseOf(s, w).Idle? && Finds(s.ledger.issued, id, purpose)
    case Late(w) => PhaseOf(s, w).Fetched? && PhaseOf(s, w).id !in s.rows
    case Take(w) =>
      PhaseOf(s, w).Fetched? && PhaseOf(s, w).id in s.rows && Unlocked(s, {PhaseOf(s, w).id}, w)
    case TooOld(w) => PhaseOf(s, w).Taken? && Expired(PhaseOf(s, w).row, s.now)
    case Grant(w) => PhaseOf(s, w).Taken? && !Expired(PhaseOf(s, w).row, s.now)
    case Commit(w) => PhaseOf(s, w).Holding?
    case Abandon(w) => !PhaseOf(s, w).Idle?
  }

  function WithPhase<V>(s: State<V>, w: nat, phase: Phase<V>): State<V> {
    s.(workers := s.workers[w := phase])
  }

  ghost function Next<V>(s: State<V>, e: Event<V>): State<V>
    requires Enabled(s, e)
  {
    match e
    case Tick(now) => s.(now := now)
    case StartIssue(w, id, row) => WithPhase(s, w, Issuing(id, row, OldKeys(s.rows, s.now)))
    case CommitIssue(w) =>
      var p := PhaseOf(s, w);
      WithPhase(s, w, Idle).(
        rows := (s.rows - p.swept)[p.id := p.row],
        ledger := s.ledger.(issued := s.ledger.issued[p.id := p.row]))
    case Miss(w, _, _) => s
    case Fetch(w, id, purpose) => WithPhase(s, w, Fetched(id, s.ledger.issued[id], purpose))
    case Late(w) => WithPhase(s, w, Idle)
    case Take(w) =>
      var p := PhaseOf(s, w);
      WithPhase(s, w, Taken(p.id, p.row, p.purpose))
    case TooOld(w) => WithPhase(s, w, Idle)
    case Grant(w) =>
      var p := PhaseOf(s, w);
      WithPhase(s, w, Holding(p.id, p.row, p.purpose, s.now))
    case Commit(w) =>
      var p := PhaseOf(s, w);
      WithPhase(s, w, Idle).(
        rows := s.rows - {p.id},
        ledger := s.ledger.(used := s.ledger.used + {p.id}),
        wins := s.wins + [Win(p.id, p.row, p.purpose, p.judgedAt)])
    case Abandon(w) => WithPhase(s, w, Idle)
  }

  // ------------------------------------------------------------ the invariant

  ghost predicate LocksAreExclusive<V>(s: State<V>) {
    && (forall w :: w in s.workers ==> Locks(s.workers[w]) <= s.rows.Keys)
    && (forall v, w :: v in s.workers && w in s.workers && v != w ==> Locks(s.workers[v]) !! Locks(s.workers[w]))
  }

  ghost predicate IsIssued<V>(s: State<V>, id: string, row: Row<V>, purpose: Option<string>) {
    Finds(s.ledger.issued, id, purpose) && s.ledger.issued[id] == row
  }

  ghost predicate PhaseIsHonest<V>(s: State<V>, p: Phase<V>) {
    match p
    case Idle => true
    case Issuing(id, _, swept) =>
      id !in s.ledger.issued && (forall i :: i in swept && i in s.rows ==> s.rows[i].expiresAt < s.now)
    case Fetched(id, row, purpose) => IsIssued(s, id, row, purpose)
    case Taken(id, row, purpose) => IsIssued(s, id, row, purpose)
    case Holding(id, row, purpose, judgedAt) =>
      IsIssued(s, id, row, purpose) && judgedAt <= s.now && !Expired(row, judgedAt)
  }

  ghost predicate IssuesDiffer<V>(s: State<V>) {
    forall v, w ::
      (v in s.workers && w in s.workers && v != w && s.workers[v].Issuing? && s.workers[w].Issuing?)
      ==> s.workers[v].id != s.workers[w].id
  }

  /** Each winner obtained a row issued for the purpose it asked for, not expired when it
      was judged; no two winners obtained the same row. */
  ghost predicate WinsAreRight<V>(s: State<V>) {
    && (forall i :: 0 <= i < |s.wins| ==>
          && s.wins[i].id in s.ledger.used
          && IsIssued(s, s.wins[i].id, s.wins[i].row, s.wins[i].purpose)
          && s.wins[i].judgedAt <= s.now && !Expired(s.wins[i].row, s.wins[i].judgedAt))
    && (forall i, j :: 0 <= i < j < |s.wins| ==> s.wins[i].id != s.wins[j].id)
  }

  ghost predicate Inv<V>(s: State<V>) {
    && Agrees(s.rows, s.ledger, s.now)
    && LocksAreExclusive(s)
    && (forall w :: w in s.workers ==> PhaseIsHonest(s, s.workers[w]))
    && IssuesDiffer(s)
    && WinsAreRight(s)
  }

  ghost predicate Initial<V>(s: State<V>) {
    s.rows == map[] && s.workers == map[] && s.ledger == Ledger(map[], {}) && s.wins == []
  }

  /** A worker may move to any phase that is honest, locks nothing others lock,
      and does not repeat a key being issued. */
  lemma PhaseChangeKeepsInv<V>(s: State<V>, w: nat, p: Phase<V>)
    requires Inv(s) && PhaseIsHonest(s, p)
    requires Locks(p) <= s.rows.Keys && Unlocked(s, Locks(p), w)
    requires p.Issuing? ==> forall v :: v in s.workers && s.workers[v].Issuing? && v != w ==> s.workers[v].id != p.id
    ensures Inv(WithPhase(s, w, p))
  {
    var t := WithPhase(s, w, p);
    assert LocksAreExclusive(t);
    assert forall v :: v in t.workers ==> PhaseIsHonest(t, t.workers[v]);
    assert IssuesDiffer(t);
  }

  lemma TickKeepsInv<V>(s: State<V>, now: int)
    requires Inv(s) && s.now <= now
    ensures Inv(s.(now := now))
  {
    var t := s.(now := now);
    assert forall w :: w in t.workers ==> PhaseIsHonest(s, t.workers[w]);
    assert WinsAreRight(t);
  }

  lemma CommitIssueKeepsAgreement<V>(s: State<V>, w: nat)
    requires Inv(s) && Enabled(s, CommitIssue(w))
    ensures var t := Next(s, CommitIssue(w)); Agrees(t.rows, t.ledger, t.now)
  {
    assert PhaseIsHonest(s, s.workers[w]);
  }

  lemma CommitIssueKeepsLocks<V>(s: State<V>, w: nat)
    requires Inv(s) && Enabled(s, CommitIssue(w))
    ensures LocksAreExclusive(Next(s, CommitIssue(w)))
  {
  }

  lemma CommitIssueKeepsPhase<V>(s: State<V>, w: nat, v: nat)
    requires Inv(s) && Enabled(s, CommitIssue(w)) && v in s.workers && v != w
    ensures PhaseIsHonest(Next(s, CommitIssue(w)), s.workers[v])
  {
  }

  lemma CommitIssueKeepsWins<V>(s: State<V>, w: nat)
    requires Inv(s) && Enabled(s, CommitIssue(w))
    ensures WinsAreRight(Next(s, CommitIssue(w)))
  {
    assert PhaseIsHonest(s, s.workers[w]);
  }

  lemma CommitIssueKeepsInv<V>(s: State<V>, w: nat)
    requires Inv(s) && Enabled(s, CommitIssue(w))
    ensures Inv(Next(s, CommitIssue(w)))
  {
    var t := Next(s, CommitIssue(w));
    CommitIssueKeepsAgreement(s, w);
    CommitIssueKeepsLocks(s, w);
    forall v | v in t.workers ensures PhaseIsHonest(t, t.workers[v]) {
      if v != w {
        CommitIssueKeepsPhase(s, w, v);
      }
    }
    assert IssuesDiffer(t);
    CommitIssueKeepsWins(s, w);
  }

  lemma CommitKeepsInv<V>(s: State<V>, w: nat)
    requires Inv(s) && Enabled(s, Commit(w))
    ensures Inv(Next(s, Commit(w)))
  {
    var p, t := PhaseOf(s, w), Next(s, Commit(w));
    assert p == s.workers[w] && PhaseIsHonest(s, p);
    assert p.id in s.rows by {
      assert Locks(p) <= s.rows.Keys;
    }
    assert Agrees(t.rows, t.ledger, t.now);
    assert LocksAreExclusive(t) by {
      forall v | v in t.workers ensures Locks(t.workers[v]) <= t.rows.Keys {
        if v != w {
          assert Locks(s.workers[v]) !! Locks(p);
        }
      }
    }
    forall v | v in t.workers ensures PhaseIsHonest(t, t.workers[v]) {
      if v != w {
        assert PhaseIsHonest(s, s.workers[v]);
      }
    }
    assert IssuesDiffer(t);
    assert WinsAreRight(t);
  }

  lemma StepKeepsInv<V>(s: State<V>, e: Event<V>)
    requires Inv(s) && Enabled(s, e)
    ensures Inv(Next(s, e))
  {
    match e
    case Tick(now) => TickKeepsInv(s, now);
    case StartIssue(w, id, row) => PhaseChangeKeepsInv(s, w, Issuing(id, row, OldKeys(s.rows, s.now)));
    case CommitIssue(w) => CommitIssueKeepsInv(s, w);
    case Miss(_, _, _) =>
    case Fetch(w, id, purpose) => PhaseChangeKeepsInv(s, w, Fetched(id, s.ledger.issued[id], purpose));
    case Take(w) =>
      var p := PhaseOf(s, w);
      PhaseChangeKeepsInv(s, w, Taken(p.id, p.row, p.purpose));
    case Grant(w) =>
      var p := PhaseOf(s, w);
      PhaseChangeKeepsInv(s, w, Holding(p.id, p.row, p.purpose, s.now));
    case Commit(w) => CommitKeepsInv(s, w);
    case Late(w) => PhaseChangeKeepsInv(s, w, Idle);
    case TooOld(w) => PhaseChangeKeepsInv(s, w, Idle);
    case Abandon(w) => PhaseChangeKeepsInv(s, w, Idle);
  }

  // ------------------------------------------------------------ whole runs

  /** `events` can happen one after the other from `s`, and lead to `t`. */
  ghost predicate RunsTo<V>(s: State<V>, events: seq<Event<V>>, t: State<V>)
    decreases |events|
  {
    if events == [] then s == t
    else Enabled(s, events[0]) && RunsTo(Next(s, events[0]), events[1..], t)
  }

  lemma {:induction false} RunKeepsInv<V>(s: State<V>, events: seq<Event<V>>, t: State<V>)
    requires Inv(s) && RunsTo(s, events, t)
    ensures Inv(t)
    decreases |events|
  {
    if events != [] {
      StepKeepsInv(s, events[0]);
      RunKeepsInv(Next(s, events[0]), events[1..], t);
    }
  }

  /** In every run of any number of workers at most one committed request obtains a row.
      It asked for the purpose the row was issued for, and the row had not expired. */
  lemma AtMostOneWinner<V>(s: State<V>, events: seq<Event<V>>, t: State<V>)
    requires Initial(s) && RunsTo(s, events, t)
    ensures forall i, j :: 0 <= i < j < |t.wins| ==> t.wins[i].id != t.wins[j].id
    ensures forall i :: 0 <= i < |t.wins| ==>
      && Finds(t.ledger.issued, t.wins[i].id, t.wins[i].purpose)
      && t.wins[i].row == t.ledger.issued[t.wins[i].id]
      && !Expired(t.wins[i].row, t.wins[i].judgedAt)
  {
    RunKeepsInv(s, events, t);
  }

  /** The request that a refusing event turns away. */
  ghost predicate Refuses<V>(s: State<V>, e: Event<V>, id: string, purpose: Option<string>)
    requires Enabled(s, e)
  {
    match e
    case Miss(_, i, p) => i == id && p == purpose
    case Late(w) => PhaseOf(s, w).id == id && PhaseOf(s, w).purpose == purpose
    case TooOld(w) => PhaseOf(s, w).id == id && PhaseOf(s, w).purpose == purpose
    case _ => false
  }

  /** Nobody is turned away without cause: at the moment of a refusal the row was not
      issued for that purpose, had been used by a committed request, or had expired. */
  lemma RefusalIsJustified<V>(s: State<V>, e: Event<V>, id: string, purpose: Option<string>)
    requires Inv(s) && Enabled(s, e) && Refuses(s, e, id, purpose)
    ensures !Consumable(s.ledger, id, purpose, s.now)
  {
  }

  /** And a row is handed out only when the ideal ledger would hand it out. */
  lemma GrantIsDeserved<V>(s: State<V>, w: nat)
    requires Inv(s) && Enabled(s, Grant(w))
    ensures Consumable(s.ledger, PhaseOf(s, w).id, PhaseOf(s, w).purpose, s.now)
  {
  }

  /** The workers decide as the repositories' methods do: a request that read this row and finds
      it deleted is refused, and one that deleted it is told what its expiry says. */
  lemma WorkersDecideLikeTheRepositories<V>(s: State<V>, w: nat, seen: Table<V>)
    requires Inv(s) && (PhaseOf(s, w).Fetched? || PhaseOf(s, w).Taken?)
    requires Finds(seen, PhaseOf(s, w).id, PhaseOf(s, w).purpose) && seen[PhaseOf(s, w).id] == PhaseOf(s, w).row
    ensures var p := PhaseOf(s, w);
            var verdict := Verdict(seen, s.rows, p.id, p.purpose, s.now);
            && (Enabled(s, Late(w)) ==> verdict == NotFound)
            && (Enabled(s, Grant(w)) <==> p.Taken? && verdict == Granted(p.row.value))
            && (Enabled(s, TooOld(w)) <==> p.Taken? && verdict == NotFound)
  {
  }

  /** The undisturbed request of one worker. */
  function Obtain<V>(v: nat, id: string, purpose: Option<string>): seq<Event<V>> {
    [Fetch(v, id, purpose), Take(v), Grant(v), Commit(v)]
  }

  lemma TwoSteps<V>(s: State<V>, a: Event<V>, b: Event<V>)
    requires Enabled(s, a) && Enabled(Next(s, a), b)
    ensures RunsTo(s, [a, b], Next(Next(s, a), b))
  {
  }

  lemma {:induction false} RunsCompose<V>(s: State<V>, first: seq<Event<V>>, m: State<V>, second: seq<Event<V>>, t: State<V>)
    requires RunsTo(s, first, m) && RunsTo(m, second, t)
    ensures RunsTo(s, first + second, t)
    decreases |first|
  {
    if first == [] {
      assert first + second == second;
    } else {
      assert (first + second)[1..] == first[1..] + second;
      RunsCompose(Next(s, first[0]), first[1..], m, second, t);
    }
  }

  /** A stored, unlocked, unexpired row can be obtained by any idle worker. */
  lemma FreeRowCanBeObtained<V>(s: State<V>, v: nat, id: string, purpose: Option<string>)
    returns (t: State<V>)
    requires Inv(s) && PhaseOf(s, v).Idle?
    requires Finds(s.rows, id, purpose) && !Expired(s.rows[id], s.now) && Unlocked(s, {id}, v)
    ensures RunsTo(s, Obtain(v, id, purpose), t)
    ensures t.wins == s.wins + [Win(id, s.rows[id], purpose, s.now)]
  {
    var fetched := Next(s, Fetch(v, id, purpose));
    assert Unlocked(fetched, {id}, v);
    var taken := Next(fetched, Take(v));
    TwoSteps(s, Fetch(v, id, purpose), Take(v));
    TwoSteps(taken, Grant(v), Commit(v));
    t := Next(Next(taken, Grant(v)), Commit(v));
    RunsCompose(s, [Fetch(v, id, purpose), Take(v)], taken, [Grant(v), Commit(v)], t);
    assert [Fetch(v, id, purpose), Take(v)] + [Grant(v), Commit(v)] == Obtain<V>(v, id, purpose);
  }

  lemma {:induction false} IssuedOnlyGrows<V>(s: State<V>, events: seq<Event<V>>, t: State<V>, id: string)
    requires Inv(s) && RunsTo(s, events, t) && id in s.ledger.issued
    ensures Inv(t) && s.now <= t.now && id in t.ledger.issued && t.ledger.issued[id] == s.ledger.issued[id]
    decreases |events|
  {
    if events != [] {
      var e := events[0];
      StepKeepsInv(s, e);
      assert e.CommitIssue? ==> PhaseIsHonest(s, s.workers[e.w]);
      IssuedOnlyGrows(Next(s, e), events[1..], t, id);
    }
  }

  /** The worker's whole request can run now, one step after the other, up to the commit. */
  ghost predicate CanObtain<V(!new)>(s: State<V>, v: nat, id: string, purpose: Option<string>) {
    exists t :: RunsTo(s, Obtain(v, id, purpose), t)
  }

  lemma ObtainingNeedsARow<V>(s: State<V>, v: nat, id: string, purpose: Option<string>, t: State<V>)
    requires RunsTo(s, Obtain(v, id, purpose), t)
    ensures Finds(s.ledger.issued, id, purpose) && !Expired(s.ledger.issued[id], s.now)
  {
    var events := Obtain<V>(v, id, purpose);
    var fetched := Next(s, events[0]);
    assert events[1..] == [Take(v), Grant(v), Commit(v)] && events[1..][1..] == [Grant(v), Commit(v)];
    assert RunsTo(fetched, events[1..], t);
    assert RunsTo(Next(fetched, Take(v)), [Grant(v), Commit(v)], t);
  }

  /** A request that took a row and then failed leaves it: at every later moment up to the next
      committed use, an idle worker whom nobody keeps waiting can obtain it if and only if it has
      not expired. */
  lemma RolledBackRowIsStillThere<V(!new)>(s: State<V>, w: nat, events: seq<Event<V>>, t: State<V>, v: nat)
    requires Inv(s) && (PhaseOf(s, w).Taken? || PhaseOf(s, w).Holding?)
    requires RunsTo(Next(s, Abandon(w)), events, t) && PhaseOf(s, w).id !in t.ledger.used
    requires PhaseOf(t, v).Idle? && Unlocked(t, {PhaseOf(s, w).id}, v)
    ensures var p := PhaseOf(s, w); CanObtain(t, v, p.id, p.purpose) <==> !Expired(p.row, t.now)
  {
    var p := PhaseOf(s, w);
    assert PhaseIsHonest(s, p);
    StepKeepsInv(s, Abandon(w));
    IssuedOnlyGrows(Next(s, Abandon(w)), events, t, p.id);
    if !Expired(p.row, t.now) {
      var u := FreeRowCanBeObtained(t, v, p.id, p.purpose);
      assert RunsTo(t, Obtain(v, p.id, p.purpose), u);
    }
    if CanObtain(t, v, p.id, p.purpose) {
      var u :| RunsTo(t, Obtain(v, p.id, p.purpose), u);
      ObtainingNeedsARow(t, v, p.id, p.purpose, u);
    }
  }

  // ------------------------------------------------------------ from issue to use

  /** Issuing with nothing in between does to the table what the repositories' Issue does. */
  lemma IssuingIsIssue<V>(s: State<V>, w: nat, id: string, row: Row<V>)
    requires Inv(s) && Enabled(s, StartIssue(w, id, row))
    ensures var started := Next(s, StartIssue(w, id, row));
            && Enabled(started, CommitIssue(w))
            && ReplyOf(s.rows, Op.Issue(id, row, s.now)) == Issued
            && Next(started, CommitIssue(w)).rows == TableAfter(s.rows, Op.Issue(id, row, s.now))
            && Next(started, CommitIssue(w)).ledger.issued == s.ledger.issued[id := row]
            && Inv(Next(started, CommitIssue(w)))
  {
    StepKeepsInv(s, StartIssue(w, id, row));
    StepKeepsInv(Next(s, StartIssue(w, id, row)), CommitIssue(w));
    assert s.rows - OldKeys(s.rows, s.now) == Swept(s.rows, s.now);
  }

  /** An issued row can be used: at every later moment up to a committed use, an idle worker whom
      nobody keeps waiting can obtain it for its purpose if and only if it has not expired, and
      what the worker wins is that row. */
  lemma IssuedRowCanBeObtained<V(!new)>(
    s: State<V>, w: nat, id: string, row: Row<V>, events: seq<Event<V>>, t: State<V>, v: nat)
    requires Inv(s) && Enabled(s, StartIssue(w, id, row))
    requires RunsTo(Next(Next(s, StartIssue(w, id, row)), CommitIssue(w)), events, t) && id !in t.ledger.used
    requires PhaseOf(t, v).Idle? && Unlocked(t, {id}, v)
    ensures CanObtain(t, v, id, row.purpose) <==> t.now < row.expiresAt
    ensures forall u :: RunsTo(t, Obtain(v, id, row.purpose), u) ==>
                          u.wins == t.wins + [Win(id, row, row.purpose, t.now)]
  {
    IssuingIsIssue(s, w, id, row);
    var issued := Next(Next(s, StartIssue(w, id, row)), CommitIssue(w));
    IssuedOnlyGrows(issued, events, t, id);
    if t.now < row.expiresAt {
      var u := FreeRowCanBeObtained(t, v, id, row.purpose);
      assert RunsTo(t, Obtain(v, id, row.purpose), u);
    }
    forall u | RunsTo(t, Obtain(v, id, row.purpose), u)
      ensures t.now < row.expiresAt && u.wins == t.wins + [Win(id, row, row.purpose, t.now)]
    {
      ObtainingNeedsARow(t, v, id, row.purpose, u);
      var again := FreeRowCanBeObtained(t, v, id, row.purpose);
      OneEnd(t, Obtain(v, id, row.purpose), u, again);
    }
  }

  lemma {:induction false} OneEnd<V>(s: State<V>, events: seq<Event<V>>, t: State<V>, u: State<V>)
    requires RunsTo(s, events, t) && RunsTo(s, events, u)
    ensures t == u
    decreases |events|
  {
    if events != [] {
      OneEnd(Next(s, events[0]), events[1..], t, u);
    }
  }

  /** Time passes, and from a row's expiry on nobody obtains it. */
  lemma NobodyObtainsAnExpiredRow<V(!new)>(s: State<V>, now: int, v: nat, id: string, purpose: Option<string>)
    requires s.now <= now && (id in s.ledger.issued ==> s.ledger.issued[id].expiresAt <= now)
    ensures Enabled(s, Tick(now)) && Next(s, Tick(now)).now == now && !CanObtain(Next(s, Tick(now)), v, id, purpose)
  {
    var t := Next(s, Tick(now));
    if CanObtain(t, v, id, purpose) {
      var u :| RunsTo(t, Obtain(v, id, purpose), u);
      ObtainingNeedsARow(t, v, id, purpose, u);
      assert false;
    }
  }
}

/** Whole runs of logins, requests for a new token, logout notices and sweeps.

    A request for a new token decodes the presented token three times: to let the request in, to
    ask the ledger, and to carry the login over. A token that has ended by the second decoding is
    not asked about; one that has ended by the third carries no federated login, and the request
    leaves with a local one. Notices and sweeps may come anywhere in between. */
module SessionRevocationRuns {
  import opened Wrappers
  import opened SessionRevocations

  /** A federated access token, alive strictly before `ends`. */
  datatype Token = Token(id: string, login: FederatedLogin, ends: int)

  /** A request that was let in with this token at this moment. */
  datatype Request = Request(token: Token, verifiedAt: int)

  /** After the second decoding. */
  datatype Asked = Asked(request: Request, decodedAt: int)

  /** After the third. */
  datatype Chosen = Chosen(request: Request, decodedAt: int, chosenAt: int)

  /** A new token was written: a federated one, or a pair of local ones. */
  datatype Written = Written(chosen: Chosen, at: int)

  /** A logout notice that was received and is not recorded yet. */
  datatype Received = Received(jti: string, session: FederatedSession, revokedAt: int, expiresAt: int)

  /** `Changing`: tokens and notices last as long as the settings of the day say.
      `Fixed`: every token lasts `lifetime`, every notice at least `keepFor`, and a login gets
      its first token at most `handOver` after it began. */
  datatype Settings = Changing | Fixed(lifetime: int, keepFor: int, handOver: int)

  datatype State = State(
    now: int,
    settings: Settings,
    delay: int,                  // the longest time from letting a request in to writing its token
    noticeDelay: int,            // and from receiving a notice to recording it
    records: Records,
    notices: seq<Revocation>,    // every notice ever recorded, nothing swept
    rowEnds: map<string, int>,   // refresh_sessions.expires_at, of all users
    tokens: set<Token>,
    seen: set<string>,           // ids that were ever given to a login
    verified: set<Request>,
    clean: set<Request>,         // no record covered the login when the request saw the ledger
    asked: set<Asked>,
    chosen: set<Chosen>,
    written: set<Written>,
    received: set<Received>)

  datatype Event =
    | Tick(now: int)
    | SignIn(token: Token)
    | Verify(token: Token)
    | View(request: Request)
    | Decode(request: Request)
    | Choose(asked: Asked)
    | Write(chosen: Chosen, ends: int)
    | WriteRow(row: string, ends: int)
    | DropRow(row: string)
    | Receive(jti: string, session: FederatedSession, expiresAt: int)
    | Record(received: Received, until: int)

  /** The second decoding found the token ended: "not revoked", without the ledger. */
  predicate Skipped(a: Asked) {
    a.request.token.ends <= a.decodedAt
  }

  /** The third decoding found the token alive: the federated login is carried over. */
  predicate Federated(c: Chosen) {
    c.chosenAt < c.request.token.ends
  }

  predicate Alive(s: State, k: Token) {
    k in s.tokens && s.now < k.ends
  }

  predicate WithinSettings(s: State, e: Event) {
    match s.settings
    case Changing => true
    case Fixed(lifetime, keepFor, handOver) =>
      match e
      case SignIn(k) => k.login.startedAt <= s.now <= k.login.startedAt + handOver && k.ends == s.now + lifetime
      case Write(_, ends) => ends == s.now + lifetime
      case Receive(_, _, expiresAt) => s.now + keepFor <= expiresAt
      case _ => true
  }

  /** Settings as they can be: tokens and notices last, waiting takes no negative time. */
  predicate Sensible(s: State) {
    && s.delay >= 0 && s.noticeDelay >= 0
    && (s.settings.Fixed? ==> s.settings.lifetime >= 1 && s.settings.keepFor >= 1 && s.settings.handOver >= 0)
  }

  /** Signing in by a ticket does not look into the ledger. A request's view of the ledger may be
      as old as the request. */
  ghost predicate Enabled(s: State, e: Event) {
    && WithinSettings(s, e)
    && match e
       case Tick(now) => s.now <= now
       case SignIn(k) => k.id !in s.seen
       case Verify(k) => Alive(s, k)
       case View(q) => q in s.verified && !IsRevoked(s.records, q.token.login)
       case Decode(q) => q in s.verified
       case Choose(a) => a in s.asked && (Skipped(a) || a.request in s.clean)
       case Write(c, _) => c in s.chosen && s.now <= c.request.verifiedAt + s.delay
       case WriteRow(_, _) => true
       case DropRow(_) => true
       case Receive(_, _, expiresAt) => s.now < expiresAt
       case Record(r, until) =>
         r in s.received && s.now <= r.revokedAt + s.noticeDelay && IsKeptUntil(until, r.expiresAt, s.rowEnds)
  }

  function NewTokens(c: Chosen, ends: int): set<Token> {
    if Federated(c) then {c.request.token.(ends := ends)} else {}
  }

  ghost function Next(s: State, e: Event): State
    requires Enabled(s, e)
  {
    match e
    case Tick(now) => s.(now := now)
    case SignIn(k) => s.(tokens := s.tokens + {k}, seen := s.seen + {k.id})
    case Verify(k) => s.(verified := s.verified + {Request(k, s.now)})
    case View(q) => s.(clean := s.clean + {q})
    case Decode(q) => s.(asked := s.asked + {Asked(q, s.now)})
    case Choose(a) => s.(chosen := s.chosen + {Chosen(a.request, a.decodedAt, s.now)})
    case Write(c, ends) => s.(tokens := s.tokens + NewTokens(c, ends), written := s.written + {Written(c, s.now)})
    case WriteRow(row, ends) => s.(rowEnds := s.rowEnds[row := ends])
    case DropRow(row) => s.(rowEnds := s.rowEnds - {row})
    case Receive(jti, session, expiresAt) =>
      s.(received := s.received + {Received(jti, session, s.now, expiresAt)})
    case Record(r, until) =>
      s.(records := RecordsAfter(s.records, r.jti, r.session, r.revokedAt, until, s.now),
         notices := s.notices
                    + if r.jti in SweptRecords(s.records, s.now) then []
                      else [Revocation(r.session, r.revokedAt, until)])
  }

  ghost predicate RunsTo(s: State, events: seq<Event>, t: State)
    decreases |events|
  {
    if events == [] then s == t
    else Enabled(s, events[0]) && RunsTo(Next(s, events[0]), events[1..], t)
  }

  lemma {:induction false} RunsOn(s: State, events: seq<Event>, m: State, e: Event)
    requires RunsTo(s, events, m) && Enabled(m, e)
    ensures RunsTo(s, events + [e], Next(m, e))
    decreases |events|
  {
    if events == [] {
      assert [e][1..] == [];
      assert RunsTo(Next(m, e), [], Next(m, e));
      assert events + [e] == [e];
    } else {
      assert (events + [e])[1..] == events[1..] + [e];
      RunsOn(Next(s, events[0]), events[1..], m, e);
    }
  }

  lemma {:induction false} RunsCompose(s: State, first: seq<Event>, m: State, second: seq<Event>, t: State)
    requires RunsTo(s, first, m) && RunsTo(m, second, t)
    ensures RunsTo(s, first + second, t)
    decreases |first|
  {
    if first == [] {
      assert first + second == second;
    } else {
      assert (first + second)[1..] == first[1..] + second;
      RunsCompose(Next(s, first[0]), first[1..], m, second, t);
    }
  }

  // ------------------------------------------------------------ what a request has gone through

  /** Every step of a request comes after the one before, and the steps decide as they should. */
  ghost predicate Honest(s: State) {
    && (forall k :: k in s.tokens ==> k.id in s.seen)
    && (forall q :: q in s.verified ==> q.token in s.tokens && q.verifiedAt < q.token.ends && q.verifiedAt <= s.now)
    && (forall q :: q in s.clean ==> q in s.verified)
    && (forall a :: a in s.asked ==> a.request in s.verified && a.request.verifiedAt <= a.decodedAt <= s.now)
    && (forall c :: c in s.chosen ==>
          && c.request in s.verified && c.request.verifiedAt <= c.decodedAt <= c.chosenAt <= s.now
          && (c.decodedAt < c.request.token.ends ==> c.request in s.clean))
    && (forall w :: w in s.written ==>
          w.chosen in s.chosen && w.chosen.chosenAt <= w.at <= w.chosen.request.verifiedAt + s.delay)
  }

  lemma StepKeepsHonest(s: State, e: Event)
    requires Honest(s) && Enabled(s, e)
    ensures Honest(Next(s, e))
  {
  }

  // ------------------------------------------------------------ up to its own end

  /** The record stays until `until` has passed. */
  ghost predicate Kept(s: State, login: FederatedLogin, until: int) {
    s.now <= until ==> exists jti :: jti in s.records && Covers(s.records[jti], login) && until <= s.records[jti].expiresAt
  }

  lemma StepKeepsRecord(s: State, e: Event, login: FederatedLogin, until: int)
    requires Kept(s, login, until) && Enabled(s, e)
    ensures Kept(Next(s, e), login, until)
  {
    var t := Next(s, e);
    if t.now <= until {
      var jti :| jti in s.records && Covers(s.records[jti], login) && until <= s.records[jti].expiresAt;
      assert jti in t.records && t.records[jti] == s.records[jti];
    }
  }

  lemma {:induction false} RunKeepsRecord(s: State, events: seq<Event>, t: State, login: FederatedLogin, until: int)
    requires Kept(s, login, until) && RunsTo(s, events, t)
    ensures Kept(t, login, until)
    decreases |events|
  {
    if events != [] {
      StepKeepsRecord(s, events[0], login, until);
      RunKeepsRecord(Next(s, events[0]), events[1..], t, login, until);
    }
  }

  /** A recorded notice stops every token it covers up to the end that token has, whatever comes
      later: requests in flight, new tokens, redeliveries, other notices, sweeps. It is enough that
      some row of refresh_sessions lasts as long, or that the least retention does. */
  lemma RevokedUpToItsEnd(s: State, e: Event, k: Token, events: seq<Event>, t: State)
    requires e.Record? && Enabled(s, e) && e.received.jti !in SweptRecords(s.records, s.now)
    requires Covers(Revocation(e.received.session, e.received.revokedAt, e.until), k.login)
    requires k.ends - 1 <= e.received.expiresAt || exists row :: row in s.rowEnds && k.ends <= s.rowEnds[row]
    requires RunsTo(Next(s, e), events, t) && t.now < k.ends
    ensures IsRevoked(t.records, k.login)
  {
    var u := Next(s, e);
    assert e.received.jti in u.records && k.ends - 1 <= u.records[e.received.jti].expiresAt;
    RunKeepsRecord(u, events, t, k.login, k.ends - 1);
  }

  // ------------------------------------------------------------ stopped for good

  /** Too old to write anything any more. */
  predicate Over(s: State, q: Request) {
    q.verifiedAt + s.delay < s.now
  }

  /** All federated tokens of the login end before the record does, and no request can add one. */
  ghost predicate Stopped(s: State, id: string, until: int) {
    && id in s.seen
    && (forall k :: k in s.tokens && k.id == id ==> k.ends - 1 <= until && Kept(s, k.login, until))
    && (forall q :: q in s.clean && q.token.id == id ==> Over(s, q) || until < s.now)
    && (forall c :: c in s.chosen && c.request.token.id == id && Federated(c) ==> Over(s, c.request))
  }

  lemma ChooseKeepsStopped(s: State, a: Asked, id: string, until: int)
    requires Honest(s) && Stopped(s, id, until) && Enabled(s, Choose(a)) && a.request.token.id == id
    ensures Federated(Chosen(a.request, a.decodedAt, s.now)) ==> Over(s, a.request)
  {
  }

  lemma WriteKeepsStopped(s: State, c: Chosen, ends: int, id: string, until: int)
    requires Honest(s) && Stopped(s, id, until) && Enabled(s, Write(c, ends)) && c.request.token.id == id
    ensures !Federated(c)
  {
  }

  lemma StepKeepsStopped(s: State, e: Event, id: string, until: int)
    requires Honest(s) && Stopped(s, id, until) && Enabled(s, e)
    ensures Stopped(Next(s, e), id, until)
  {
    var t := Next(s, e);
    forall k | k in s.tokens && k.id == id ensures Kept(t, k.login, until) {
      StepKeepsRecord(s, e, k.login, until);
    }
    if e.Choose? && e.asked.request.token.id == id {
      ChooseKeepsStopped(s, e.asked, id, until);
    }
    if e.Write? && e.chosen.request.token.id == id {
      WriteKeepsStopped(s, e.chosen, e.ends, id, until);
    }
    if e.View? && e.request.token.id == id {
      assert e.request.token in s.tokens;
    }
  }

  lemma {:induction false} RunKeepsStopped(s: State, events: seq<Event>, t: State, id: string, until: int)
    requires Honest(s) && Stopped(s, id, until) && RunsTo(s, events, t)
    ensures Stopped(t, id, until)
    decreases |events|
  {
    if events != [] {
      StepKeepsHonest(s, events[0]);
      StepKeepsStopped(s, events[0], id, until);
      RunKeepsStopped(Next(s, events[0]), events[1..], t, id, until);
    }
  }

  /** Whatever happens from here on, every living federated token of the login is revoked. */
  ghost predicate StoppedForGood(s: State, id: string) {
    forall events, t, k :: RunsTo(s, events, t) && Alive(t, k) && k.id == id ==> IsRevoked(t.records, k.login)
  }

  /** Some record covers the token and is still there at the token's last moment. */
  ghost predicate HeldBack(s: State, k: Token) {
    exists jti :: jti in s.records && Covers(s.records[jti], k.login) && k.ends - 1 <= s.records[jti].expiresAt
  }

  /** The login's last token, and no request that saw the ledger without the record may still write. */
  ghost predicate LastOne(s: State, k: Token) {
    && Alive(s, k)
    && (forall j :: j in s.tokens && j.id == k.id ==> j.login == k.login && j.ends <= k.ends)
    && (forall q :: q in s.clean && q.token.id == k.id ==> Over(s, q))
  }

  function NoticeLife(settings: Settings): int {
    if settings.Fixed? then settings.keepFor else 1
  }

  /** The token's last moment comes, and with a notice about somebody else a sweep. */
  lemma SweptBeforeItsEnd(s: State, k: Token) returns (events: seq<Event>, t: State)
    requires Sensible(s) && Alive(s, k)
    requires forall jti :: jti in s.records && Covers(s.records[jti], k.login) ==> s.records[jti].expiresAt < k.ends - 1
    ensures RunsTo(s, events, t) && s.notices <= t.notices && Alive(t, k) && !IsRevoked(t.records, k.login)
  {
    var last, session := k.ends - 1, k.login.session;
    var other := session.(subject := session.subject + "x");
    assert |other.subject| != |session.subject|;
    assert RunsTo(s, [], s);
    var tick, receive := Tick(last), Receive("other", other, last + NoticeLife(s.settings));
    RunsOn(s, [], s, tick);
    var m := Next(s, tick);
    RunsOn(s, [] + [tick], m, receive);
    var n := Next(m, receive);
    var r := Received("other", other, last, last + NoticeLife(s.settings));
    var until := SomeBound(n.rowEnds, r.expiresAt);
    RunsOn(s, [] + [tick] + [receive], n, Record(r, until));
    events, t := [] + [tick] + [receive] + [Record(r, until)], Next(n, Record(r, until));
  }

  /** When every covering record goes before the token does, there is a run that gives it back. */
  lemma KeptTooShort(s: State, k: Token)
    requires Sensible(s) && Alive(s, k) && !HeldBack(s, k)
    ensures !StoppedForGood(s, k.id)
  {
    var events, t := SweptBeforeItsEnd(s, k);
    assert Alive(t, k);
  }

  /** A login is stopped for good exactly when some record that covers it is kept until its last
      token's last moment. */
  lemma StoppedExactlyWhenHeldBack(s: State, k: Token)
    requires Sensible(s) && Honest(s) && LastOne(s, k)
    ensures StoppedForGood(s, k.id) <==> HeldBack(s, k)
  {
    if HeldBack(s, k) {
      forall events, t, j | RunsTo(s, events, t) && Alive(t, j) && j.id == k.id ensures IsRevoked(t.records, j.login) {
        RunKeepsStopped(s, events, t, k.id, k.ends - 1);
      }
    } else {
      KeptTooShort(s, k);
    }
  }

  /** So recording a notice stops for good every login that ends within its retention. */
  lemma NoticeStopsForGood(s: State, e: Event, k: Token)
    requires Sensible(s) && Honest(s) && LastOne(s, k)
    requires e.Record? && Enabled(s, e) && e.received.jti !in SweptRecords(s.records, s.now)
    requires Covers(Revocation(e.received.session, e.received.revokedAt, e.until), k.login)
    requires k.ends - 1 <= e.received.expiresAt || exists row :: row in s.rowEnds && k.ends <= s.rowEnds[row]
    ensures StoppedForGood(Next(s, e), k.id)
  {
    var t := Next(s, e);
    assert e.received.jti in t.records
           && t.records[e.received.jti] == Revocation(e.received.session, e.received.revokedAt, e.until);
    StepKeepsHonest(s, e);
    StoppedExactlyWhenHeldBack(t, k);
  }

  // ------------------------------------------------------------ rows of refresh_sessions

  /** A login on record when a notice is recorded holds the notice up to its end; one that is gone
      does not. */
  lemma RowHoldsTheNotice(s: State, row: string, ends: int, r: Received, until: int)
    ensures Enabled(s, WriteRow(row, ends))
    ensures Enabled(Next(s, WriteRow(row, ends)), Record(r, until)) ==> ends <= until
  {
    assert Enabled(s, WriteRow(row, ends)) && Next(s, WriteRow(row, ends)).rowEnds[row] == ends;
  }

  lemma DroppedRowDoesNot(s: State, row: string, r: Received)
    requires s.rowEnds.Keys <= {row} && r in s.received && s.now <= r.revokedAt + s.noticeDelay
    ensures Enabled(s, DropRow(row)) && Enabled(Next(s, DropRow(row)), Record(r, r.expiresAt))
  {
  }
}
